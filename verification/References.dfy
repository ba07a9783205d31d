/** Who refers to whom: buffer names in bindings and vertex arrays, texture names
    in units and framebuffers, renderbuffer names in framebuffers. Deletion must
    leave no reference behind, or a reused slot would revive it
    (src/objects/buffer.c, vertex_array.c, framebuffer.c, texture.c). */
module References {
  import opened Limits
  import opened ContextState
  import opened ObjectTable
  import opened VertexArrays

  /** A held name is zero, or resolves for its type and is not the name about to
      be released. `banned == 0` bans nothing. */
  predicate Held(slots: seq<Slot>, name: nat, kind: ObjectType, banned: nat)
    requires |slots| == OBJECT_SLOT_COUNT
  {
    name == 0 || (name != banned && Resolves(slots, name, kind))
  }

  predicate RecordHeld(slots: seq<Slot>, state: VertexArrayState, banned: nat)
    requires |slots| == OBJECT_SLOT_COUNT
  {
    && Held(slots, state.elementArrayBuffer, BufferType, banned)
    && forall i :: 0 <= i < |state.descriptors| ==> Held(slots, state.descriptors[i].buffer, BufferType, banned)
  }

  predicate RecordEmpty(state: VertexArrayState) {
    && state.elementArrayBuffer == 0
    && forall i :: 0 <= i < |state.descriptors| ==> state.descriptors[i].buffer == 0
  }

  /** A slot that is no vertex array keeps no buffer names for its next owner. */
  ghost predicate RecordsHeld(slots: seq<Slot>, records: seq<VertexArrayState>, banned: nat)
    requires |slots| == OBJECT_SLOT_COUNT
  {
    && |records| == OBJECT_SLOT_COUNT
    && forall i :: 0 <= i < OBJECT_SLOT_COUNT ==>
         && RecordHeld(slots, records[i], banned)
         && (slots[i].kind != VertexArrayType ==> RecordEmpty(records[i]))
  }

  predicate AttachmentHeld(slots: seq<Slot>, a: Attachment, banned: nat)
    requires |slots| == OBJECT_SLOT_COUNT
  {
    match a.kind
    case NoAttachment => a.name == 0
    case TextureAttachment => a.name != 0 && Held(slots, a.name, TextureType, banned)
    case RenderbufferAttachment => a.name != 0 && Held(slots, a.name, RenderbufferType, banned)
  }

  predicate FramebufferHeld(slots: seq<Slot>, f: FramebufferObject, banned: nat)
    requires |slots| == OBJECT_SLOT_COUNT
  {
    && |f.color| == MAX_COLOR_ATTACHMENTS
    && (forall i :: 0 <= i < MAX_COLOR_ATTACHMENTS ==> AttachmentHeld(slots, f.color[i], banned))
    && AttachmentHeld(slots, f.depth, banned)
    && AttachmentHeld(slots, f.stencil, banned)
  }

  ghost predicate FramebuffersHeld(slots: seq<Slot>, framebuffers: seq<FramebufferObject>, banned: nat)
    requires |slots| == OBJECT_SLOT_COUNT
  {
    && |framebuffers| == OBJECT_SLOT_COUNT
    && forall i :: 0 <= i < OBJECT_SLOT_COUNT ==>
         && FramebufferHeld(slots, framebuffers[i], banned)
         && (slots[i].kind != FramebufferType ==> framebuffers[i] == ZERO_FRAMEBUFFER)
  }

  ghost predicate UnitsHeld(slots: seq<Slot>, units: seq<nat>, banned: nat)
    requires |slots| == OBJECT_SLOT_COUNT
  {
    && |units| == MAX_TEXTURE_UNITS
    && forall u :: 0 <= u < MAX_TEXTURE_UNITS ==> Held(slots, units[u], TextureType, banned)
  }

  /** Everything in a context that holds names. */
  datatype Refs = Refs(
    arrayBuffer: nat, working: VertexArrayState, defaultArray: VertexArrayState, records: seq<VertexArrayState>,
    arrayBinding: nat, framebuffers: seq<FramebufferObject>, framebufferBinding: nat, renderbufferBinding: nat,
    units2D: seq<nat>, unitsCube: seq<nat>)

  ghost function RefsOf(ctx: Context): Refs
    reads ctx`vertexArrays, ctx`defaultVertexArray, ctx`attribs, ctx`vertexArrayBinding,
          ctx`elementArrayBuffer, ctx`arrayBuffer, ctx`framebuffers, ctx`framebufferBinding,
          ctx`renderbufferBinding, ctx`boundTexture2D, ctx`boundTextureCube
  {
    Refs(ctx.arrayBuffer, Working(ctx), ctx.defaultVertexArray, ctx.vertexArrays, ctx.vertexArrayBinding,
         ctx.framebuffers, ctx.framebufferBinding, ctx.renderbufferBinding, ctx.boundTexture2D, ctx.boundTextureCube)
  }

  ghost predicate AllHeld(slots: seq<Slot>, refs: Refs, banned: nat)
    requires |slots| == OBJECT_SLOT_COUNT
  {
    && Held(slots, refs.arrayBuffer, BufferType, banned)
    && RecordHeld(slots, refs.working, banned)
    && RecordHeld(slots, refs.defaultArray, banned)
    && RecordsHeld(slots, refs.records, banned)
    && Held(slots, refs.arrayBinding, VertexArrayType, banned)
    && FramebuffersHeld(slots, refs.framebuffers, banned)
    && Held(slots, refs.framebufferBinding, FramebufferType, banned)
    && Held(slots, refs.renderbufferBinding, RenderbufferType, banned)
    && UnitsHeld(slots, refs.units2D, banned)
    && UnitsHeld(slots, refs.unitsCube, banned)
  }

  /** The invariant of every reachable state: no binding, descriptor or
      attachment names anything but a slot in use for the right type. */
  ghost predicate RefsValid(ctx: Context)
    reads ctx`slots, ctx`vertexArrays, ctx`defaultVertexArray, ctx`attribs, ctx`vertexArrayBinding,
          ctx`elementArrayBuffer, ctx`arrayBuffer, ctx`framebuffers, ctx`framebufferBinding,
          ctx`renderbufferBinding, ctx`boundTexture2D, ctx`boundTextureCube
  {
    ArraysValid(ctx) && AllHeld(ctx.slots, RefsOf(ctx), 0)
  }

  // ------------------------------------------------- changes of the name table

  /** Names other than `gone` keep resolving, and every container that is not
      empty stays what it is. */
  ghost predicate KeepsNames(a: seq<Slot>, b: seq<Slot>, refs: Refs, gone: nat) {
    && TableValid(a) && TableValid(b)
    && |refs.records| == |refs.framebuffers| == OBJECT_SLOT_COUNT
    && (forall n, k :: n != gone && Resolves(a, n, k) ==> Resolves(b, n, k))
    && (forall i :: 0 <= i < OBJECT_SLOT_COUNT && a[i].kind == VertexArrayType && b[i].kind != VertexArrayType ==>
          RecordEmpty(refs.records[i]))
    && (forall i :: 0 <= i < OBJECT_SLOT_COUNT && a[i].kind == FramebufferType && b[i].kind != FramebufferType ==>
          refs.framebuffers[i] == ZERO_FRAMEBUFFER)
  }

  lemma RecordKept(a: seq<Slot>, b: seq<Slot>, state: VertexArrayState, gone: nat)
    requires TableValid(a) && TableValid(b) && RecordHeld(a, state, gone)
    requires forall n, k :: n != gone && Resolves(a, n, k) ==> Resolves(b, n, k)
    ensures RecordHeld(b, state, 0)
  {
  }

  lemma FramebufferKept(a: seq<Slot>, b: seq<Slot>, f: FramebufferObject, gone: nat)
    requires TableValid(a) && TableValid(b) && FramebufferHeld(a, f, gone)
    requires forall n, k :: n != gone && Resolves(a, n, k) ==> Resolves(b, n, k)
    ensures FramebufferHeld(b, f, 0)
  {
  }

  /** Once nothing refers to a name, the table may drop it. */
  lemma DroppingKeepsRefs(a: seq<Slot>, b: seq<Slot>, refs: Refs, gone: nat)
    requires KeepsNames(a, b, refs, gone) && AllHeld(a, refs, gone)
    ensures AllHeld(b, refs, 0)
  {
    RecordKept(a, b, refs.working, gone);
    RecordKept(a, b, refs.defaultArray, gone);
    forall i | 0 <= i < OBJECT_SLOT_COUNT
      ensures RecordHeld(b, refs.records[i], 0) && FramebufferHeld(b, refs.framebuffers[i], 0)
    {
      RecordKept(a, b, refs.records[i], gone);
      FramebufferKept(a, b, refs.framebuffers[i], gone);
    }
  }

  /** A name resolves for one type only. */
  lemma OneType(slots: seq<Slot>, name: nat, k1: ObjectType, k2: ObjectType)
    requires |slots| == OBJECT_SLOT_COUNT && Resolves(slots, name, k1) && Resolves(slots, name, k2)
    ensures k1 == k2
  {
  }

  // ---------------------------------------------------------------- buffers

  const ARRAY_BUFFER: nat := 0x8892
  const ELEMENT_ARRAY_BUFFER: nat := 0x8893

  /** The first bind of a name makes it a live object; no name stops resolving. */
  method PromoteHeld(ctx: Context, name: nat, kind: ObjectType)
    requires RefsValid(ctx) && Resolves(ctx.slots, name, kind)
    modifies ctx`slots
    ensures RefsValid(ctx) && View(ctx) == old(View(ctx)) && SameNames(old(ctx.slots), ctx.slots)
  {
    PromoteName(ctx, name, kind);
    DroppingKeepsRefs(old(ctx.slots), ctx.slots, RefsOf(ctx), 0);
    RolledBackView(old(ctx.slots), ctx.slots, ctx.vertexArrays, ctx.vertexArrays, ctx.defaultVertexArray,
                   ctx.vertexArrayBinding, Working(ctx));
  }

  /** The start of every bind: an unknown name is an error, a known one is promoted. */
  method AdoptName(ctx: Context, name: nat, kind: ObjectType) returns (ok: bool)
    requires RefsValid(ctx)
    modifies ctx`slots, ctx`pendingError
    ensures RefsValid(ctx) && View(ctx) == old(View(ctx)) && SameNames(old(ctx.slots), ctx.slots)
    ensures ok == Held(old(ctx.slots), name, kind, 0)
    ensures ctx.pendingError == if ok then old(ctx.pendingError) else Context.Pending(old(ctx.pendingError), InvalidOperation)
  {
    hide AllHeld, ViewOf;
    if name != 0 {
      if !Resolves(ctx.slots, name, kind) {
        ctx.RecordError(InvalidOperation);
        return false;
      }
      PromoteHeld(ctx, name, kind);
    }
    return true;
  }

  method SetArrayBuffer(ctx: Context, buffer: nat)
    requires RefsValid(ctx) && Held(ctx.slots, buffer, BufferType, 0)
    modifies ctx`arrayBuffer
    ensures RefsValid(ctx) && ctx.arrayBuffer == buffer
  {
    ctx.arrayBuffer := buffer;
  }

  method SetElementBuffer(ctx: Context, buffer: nat)
    requires RefsValid(ctx) && Held(ctx.slots, buffer, BufferType, 0)
    modifies ctx`elementArrayBuffer
    ensures RefsValid(ctx)
    ensures View(ctx) == old(View(ctx))[ctx.vertexArrayBinding := old(Working(ctx)).(elementArrayBuffer := buffer)]
  {
    ctx.elementArrayBuffer := buffer;
    WorkingIsTheCurrentEntry(ctx.slots, ctx.vertexArrays, ctx.defaultVertexArray, ctx.vertexArrayBinding,
                             old(Working(ctx)), Working(ctx));
  }

  function BindBufferError(slots: seq<Slot>, target: nat, buffer: nat): Error
    requires |slots| == OBJECT_SLOT_COUNT
  {
    if target != ARRAY_BUFFER && target != ELEMENT_ARRAY_BUFFER then InvalidEnum
    else if !Held(slots, buffer, BufferType, 0) then InvalidOperation
    else NoError
  }

  /** The element binding belongs to the current vertex array, the array binding
      to the context. */
  method BindBuffer(ctx: Context, target: nat, buffer: nat)
    requires RefsValid(ctx)
    modifies ctx`slots, ctx`arrayBuffer, ctx`elementArrayBuffer, ctx`pendingError
    ensures RefsValid(ctx)
    ensures SameNames(old(ctx.slots), ctx.slots)
    ensures var error := BindBufferError(old(ctx.slots), target, buffer);
            if error != NoError then
              && ctx.arrayBuffer == old(ctx.arrayBuffer) && View(ctx) == old(View(ctx))
              && ctx.pendingError == Context.Pending(old(ctx.pendingError), error)
            else if target == ARRAY_BUFFER then
              ctx.arrayBuffer == buffer && View(ctx) == old(View(ctx)) && ctx.pendingError == old(ctx.pendingError)
            else
              && ctx.arrayBuffer == old(ctx.arrayBuffer) && ctx.pendingError == old(ctx.pendingError)
              && View(ctx) == old(View(ctx))[ctx.vertexArrayBinding := old(Working(ctx)).(elementArrayBuffer := buffer)]
  {
    hide AllHeld;
    if target != ARRAY_BUFFER && target != ELEMENT_ARRAY_BUFFER {
      ctx.RecordError(InvalidEnum);
      return;
    }
    var ok := AdoptName(ctx, buffer, BufferType);
    if !ok {
      return;
    }
    if target == ARRAY_BUFFER {
      SetArrayBuffer(ctx, buffer);
    } else {
      SetElementBuffer(ctx, buffer);
    }
  }

  /** A name of one type is no reference of another. */
  lemma BanOthers(slots: seq<Slot>, name: nat, kind: ObjectType)
    requires |slots| == OBJECT_SLOT_COUNT && Resolves(slots, name, kind)
    ensures forall n, k :: k != kind && Held(slots, n, k, 0) ==> Held(slots, n, k, name)
  {
    forall n, k | k != kind && Held(slots, n, k, 0)
      ensures Held(slots, n, k, name)
    {
      if n != 0 && n == name {
        OneType(slots, name, k, kind);
      }
    }
  }

  lemma FramebuffersIgnoreBuffers(slots: seq<Slot>, f: FramebufferObject, name: nat, kind: ObjectType)
    requires |slots| == OBJECT_SLOT_COUNT && Resolves(slots, name, kind)
    requires kind != TextureType && kind != RenderbufferType && FramebufferHeld(slots, f, 0)
    ensures FramebufferHeld(slots, f, name)
  {
    BanOthers(slots, name, kind);
  }

  lemma RecordsIgnoreTextures(slots: seq<Slot>, state: VertexArrayState, name: nat, kind: ObjectType)
    requires |slots| == OBJECT_SLOT_COUNT && Resolves(slots, name, kind)
    requires kind != BufferType && RecordHeld(slots, state, 0)
    ensures RecordHeld(slots, state, name)
  {
    BanOthers(slots, name, kind);
  }

  lemma ScrubbingBans(slots: seq<Slot>, state: VertexArrayState, name: nat)
    requires |slots| == OBJECT_SLOT_COUNT && name != 0 && RecordHeld(slots, state, 0)
    ensures RecordHeld(slots, ScrubArray(state, name), name)
    ensures RecordEmpty(state) ==> RecordHeld(slots, state, name)
  {
  }

  ghost predicate SameNonBufferRefs(a: Refs, b: Refs) {
    && a.arrayBinding == b.arrayBinding
    && a.framebuffers == b.framebuffers
    && a.framebufferBinding == b.framebufferBinding
    && a.renderbufferBinding == b.renderbufferBinding
    && a.units2D == b.units2D
    && a.unitsCube == b.unitsCube
  }

  lemma ScrubbingBansAll(slots: seq<Slot>, refs: Refs, refs': Refs, name: nat)
    requires TableValid(slots) && AllHeld(slots, refs, 0) && Resolves(slots, name, BufferType)
    requires refs'.arrayBuffer == if refs.arrayBuffer == name then 0 else refs.arrayBuffer
    requires refs'.working == ScrubArray(refs.working, name) && refs'.defaultArray == ScrubArray(refs.defaultArray, name)
    requires |refs'.records| == OBJECT_SLOT_COUNT
    requires forall i :: 0 <= i < OBJECT_SLOT_COUNT ==> refs'.records[i] == ScrubSlot(slots[i], refs.records[i], name)
    requires SameNonBufferRefs(refs, refs')
    ensures AllHeld(slots, refs', name)
  {
    NamesRoundTrip(0, 0, name);
    BanOthers(slots, name, BufferType);
    ScrubbingBans(slots, refs.working, name);
    ScrubbingBans(slots, refs.defaultArray, name);
    forall i | 0 <= i < OBJECT_SLOT_COUNT
      ensures RecordHeld(slots, refs'.records[i], name)
      ensures FramebufferHeld(slots, refs.framebuffers[i], name)
    {
      ScrubbingBans(slots, refs.records[i], name);
      FramebuffersIgnoreBuffers(slots, refs.framebuffers[i], name, BufferType);
    }
  }

  /** ringl_delete_buffers before the name is released: no binding and no vertex
      array, bound or not, refers to the buffer any more. */
  method UnbindBuffer(ctx: Context, name: nat)
    requires RefsValid(ctx) && Resolves(ctx.slots, name, BufferType)
    modifies ctx`arrayBuffer, ctx`elementArrayBuffer, ctx`attribs, ctx`vertexArrays, ctx`defaultVertexArray
    ensures ArraysValid(ctx) && AllHeld(ctx.slots, RefsOf(ctx), name)
    ensures View(ctx) == map n | n in old(View(ctx)) :: ScrubArray(old(View(ctx))[n], name)
    ensures CurrentsOf(ctx.attribs) == old(CurrentsOf(ctx.attribs))
    ensures ctx.arrayBuffer == if old(ctx.arrayBuffer) == name then 0 else old(ctx.arrayBuffer)
  {
    hide AllHeld, ViewOf;
    NamesRoundTrip(0, 0, 0);
    ghost var refs := RefsOf(ctx);
    ClearBufferBindings(ctx, name);
    DetachBuffer(ctx, name);
    assert AllHeld(ctx.slots, RefsOf(ctx), name) by {
      ScrubbingBansAll(ctx.slots, refs, RefsOf(ctx), name);
    }
  }

  method ClearBufferBindings(ctx: Context, name: nat)
    requires ArraysValid(ctx)
    modifies ctx`arrayBuffer, ctx`elementArrayBuffer
    ensures ctx.arrayBuffer == if old(ctx.arrayBuffer) == name then 0 else old(ctx.arrayBuffer)
    ensures ArraysValid(ctx) && ScrubArray(Working(ctx), name) == ScrubArray(old(Working(ctx)), name)
    ensures View(ctx).Keys == old(View(ctx).Keys)
    ensures forall n :: n in View(ctx) ==> ScrubArray(View(ctx)[n], name) == ScrubArray(old(View(ctx))[n], name)
  {
    if ctx.arrayBuffer == name {
      ctx.arrayBuffer := 0;
    }
    if ctx.elementArrayBuffer == name {
      ctx.elementArrayBuffer := 0;
    }
  }

  // ----------------------------------------------------- releasing any name

  lemma ReleaseKeepsOthers(slots: seq<Slot>, name: nat, kind: ObjectType)
    requires TableValid(slots) && Resolves(slots, name, kind)
    ensures var after := Released(slots, Lookup(slots, name, kind));
            && TableValid(after)
            && (forall k :: !Resolves(after, name, k))
            && (forall n, k :: n != name ==> Lookup(after, n, k) == Lookup(slots, n, k))
  {
    forall n, k
      ensures var after := Released(slots, Lookup(slots, name, kind));
              && TableValid(after) && Lookup(after, name, k) == OBJECT_SLOT_COUNT
              && (n != name ==> Lookup(after, n, k) == Lookup(slots, n, k))
    {
      ReleaseNames(slots, name, kind, n, k);
    }
  }

  /** Nothing refers to the name any more, so releasing it keeps every reference valid. */
  method ReleaseUnreferenced(ctx: Context, name: nat, kind: ObjectType)
    requires ArraysValid(ctx) && AllHeld(ctx.slots, RefsOf(ctx), name) && Resolves(ctx.slots, name, kind)
    requires kind != VertexArrayType
    requires kind == FramebufferType ==> ctx.framebuffers[Lookup(ctx.slots, name, kind)] == ZERO_FRAMEBUFFER
    modifies ctx`slots
    ensures RefsValid(ctx)
    ensures ctx.slots == Released(old(ctx.slots), Lookup(old(ctx.slots), name, kind))
    ensures forall k :: !Resolves(ctx.slots, name, k)
    ensures forall n, k :: n != name ==> Lookup(ctx.slots, n, k) == Lookup(old(ctx.slots), n, k)
  {
    hide AllHeld;
    var before := ctx.slots;
    ReleaseKeepsOthers(before, name, kind);
    ReferencesSurvive(before, RefsOf(ctx), name, kind);
    Release(ctx, name, kind);
  }

  lemma ReferencesSurvive(slots: seq<Slot>, refs: Refs, name: nat, kind: ObjectType)
    requires TableValid(slots) && AllHeld(slots, refs, name) && Resolves(slots, name, kind)
    requires kind != VertexArrayType
    requires kind == FramebufferType ==> refs.framebuffers[Lookup(slots, name, kind)] == ZERO_FRAMEBUFFER
    ensures var after := Released(slots, Lookup(slots, name, kind));
            TableValid(after) && AllHeld(after, refs, 0) && IsArray(after, refs.arrayBinding)
  {
    ReleaseKeepsOthers(slots, name, kind);
    DroppingKeepsRefs(slots, Released(slots, Lookup(slots, name, kind)), refs, name);
  }

  // --------------------------------------------------- generating any names

  lemma AddsKeepsRefs(a: seq<Slot>, b: seq<Slot>, refs: Refs, names: seq<nat>, kind: ObjectType)
    requires Adds(a, b, names, kind) && AllHeld(a, refs, 0)
    ensures AllHeld(b, refs, 0)
  {
    assert forall n, k :: Resolves(a, n, k) ==> n !in names;
    DroppingKeepsRefs(a, b, refs, 0);
  }

  /** glGenBuffers, glGenTextures, glGenFramebuffers, glGenRenderbuffers. */
  method GenObjects(ctx: Context, kind: ObjectType, count: int, objects: array<nat>)
    requires RefsValid(ctx) && kind != NoType && kind != VertexArrayType && count <= objects.Length
    modifies ctx`slots, ctx`pendingError, objects
    ensures RefsValid(ctx)
    ensures count < 0 ==> ctx.slots == old(ctx.slots)
    ensures 0 <= count ==>
              ((forall i :: 0 <= i < count ==> objects[i] != 0) <==> count <= FreeSlots(old(ctx.slots), OBJECT_SLOT_COUNT))
    ensures 0 <= count && (forall i :: 0 <= i < count ==> objects[i] != 0) ==>
              Adds(old(ctx.slots), ctx.slots, objects[..count], kind) && ctx.pendingError == old(ctx.pendingError)
    ensures 0 <= count && (exists i :: 0 <= i < count && objects[i] == 0) ==>
              Adds(old(ctx.slots), ctx.slots, [], kind) && ctx.pendingError == Context.Pending(old(ctx.pendingError), OutOfMemory)
  {
    hide AllHeld;
    ghost var refs := RefsOf(ctx);
    GenerateObjects(ctx, kind, count, objects);
    if count >= 0 {
      if forall i :: 0 <= i < count ==> objects[i] != 0 {
        AddsKeepsRefs(old(ctx.slots), ctx.slots, refs, objects[..count], kind);
      } else {
        AddsKeepsRefs(old(ctx.slots), ctx.slots, refs, [], kind);
      }
      assert ctx.vertexArrayBinding == 0 || Held(old(ctx.slots), ctx.vertexArrayBinding, VertexArrayType, 0);
    }
  }

  // --------------------------------------------------------- vertex arrays

  lemma ShufflingKeepsHeld(slots: seq<Slot>, refs: Refs, refs': Refs)
    requires |slots| == OBJECT_SLOT_COUNT && AllHeld(slots, refs, 0)
    requires Shuffled(slots, refs.working, refs.defaultArray, refs.records, refs'.working, refs'.defaultArray, refs'.records)
    requires refs'.arrayBuffer == refs.arrayBuffer && Held(slots, refs'.arrayBinding, VertexArrayType, 0)
    requires refs' == refs.(working := refs'.working, defaultArray := refs'.defaultArray, records := refs'.records,
                            arrayBinding := refs'.arrayBinding)
    ensures AllHeld(slots, refs', 0)
  {
    forall i | 0 <= i < OBJECT_SLOT_COUNT
      ensures RecordHeld(slots, refs'.records[i], 0)
      ensures slots[i].kind != VertexArrayType ==> RecordEmpty(refs'.records[i])
    {
      if refs'.records[i] == refs.records[i] {
      } else if refs'.records[i] == ZERO_ARRAY {
        assert RecordEmpty(ZERO_ARRAY);
      }
    }
  }

  lemma RefSizes(slots: seq<Slot>, refs: Refs)
    requires |slots| == OBJECT_SLOT_COUNT && AllHeld(slots, refs, 0)
    ensures |refs.records| == |refs.framebuffers| == OBJECT_SLOT_COUNT
  {
  }

  /** glBindVertexArray keeps every reference valid. */
  method BindArray(ctx: Context, name: nat)
    requires RefsValid(ctx)
    modifies ctx`slots, ctx`vertexArrays, ctx`defaultVertexArray, ctx`elementArrayBuffer, ctx`attribs,
             ctx`vertexArrayBinding, ctx`pendingError
    ensures RefsValid(ctx) && View(ctx) == old(View(ctx)) && SameNames(old(ctx.slots), ctx.slots)
    ensures CurrentsOf(ctx.attribs) == old(CurrentsOf(ctx.attribs))
    ensures if old(IsArray(ctx.slots, name)) then ctx.vertexArrayBinding == name && ctx.pendingError == old(ctx.pendingError)
            else && ctx.vertexArrayBinding == old(ctx.vertexArrayBinding)
                 && ctx.pendingError == Context.Pending(old(ctx.pendingError), InvalidOperation)
  {
    hide AllHeld, ViewOf;
    ghost var slots, refs := ctx.slots, RefsOf(ctx);
    BindVertexArray(ctx, name);
    RefSizes(slots, refs);
    ShufflingKeepsHeld(slots, refs, RefsOf(ctx));
    DroppingKeepsRefs(slots, ctx.slots, RefsOf(ctx), 0);
  }

  lemma ZeroedArrayBans(slots: seq<Slot>, refs: Refs, refs': Refs, name: nat)
    requires TableValid(slots) && AllHeld(slots, refs, 0) && Resolves(slots, name, VertexArrayType)
    requires Shuffled(slots, refs.working, refs.defaultArray, refs.records, refs'.working, refs'.defaultArray, refs'.records)
    requires refs'.arrayBinding == if refs.arrayBinding == name then 0 else refs.arrayBinding
    requires refs' == refs.(working := refs'.working, defaultArray := refs'.defaultArray, records := refs'.records,
                            arrayBinding := refs'.arrayBinding)
    ensures AllHeld(slots, refs', name)
  {
    NamesRoundTrip(0, 0, name);
    BanOthers(slots, name, VertexArrayType);
    ShufflingKeepsHeld(slots, refs, refs');
    RecordsIgnoreTextures(slots, refs'.working, name, VertexArrayType);
    RecordsIgnoreTextures(slots, refs'.defaultArray, name, VertexArrayType);
    forall i | 0 <= i < OBJECT_SLOT_COUNT
      ensures RecordHeld(slots, refs'.records[i], name)
      ensures FramebufferHeld(slots, refs.framebuffers[i], name)
    {
      RecordsIgnoreTextures(slots, refs'.records[i], name, VertexArrayType);
      FramebuffersIgnoreBuffers(slots, refs.framebuffers[i], name, VertexArrayType);
    }
  }

  /** glDeleteVertexArrays keeps every reference valid, name by name. */
  method DeleteArray(ctx: Context, name: nat)
    requires RefsValid(ctx)
    modifies ctx`slots, ctx`vertexArrays, ctx`defaultVertexArray, ctx`elementArrayBuffer, ctx`attribs, ctx`vertexArrayBinding
    ensures RefsValid(ctx) && CurrentsOf(ctx.attribs) == old(CurrentsOf(ctx.attribs))
    ensures ctx.vertexArrayBinding == if old(ctx.vertexArrayBinding) == name then 0 else old(ctx.vertexArrayBinding)
    ensures var index := Lookup(old(ctx.slots), name, VertexArrayType);
            if name == 0 || index == OBJECT_SLOT_COUNT then ctx.slots == old(ctx.slots) && View(ctx) == old(View(ctx))
            else ctx.slots == Released(old(ctx.slots), index) && View(ctx) == old(View(ctx)) - {name}
    ensures old(Resolves(ctx.slots, name, VertexArrayType)) ==> forall k :: !Resolves(ctx.slots, name, k)
    ensures forall n, k :: n != name ==> Lookup(ctx.slots, n, k) == Lookup(old(ctx.slots), n, k)
  {
    hide AllHeld, ViewOf;
    NamesRoundTrip(0, 0, 0);
    ghost var slots, refs := ctx.slots, RefsOf(ctx);
    if name == 0 || !Resolves(ctx.slots, name, VertexArrayType) {
      BoundArrayResolves(slots, refs);
      return;
    }
    RefSizes(slots, refs);
    DeleteVertexArray(ctx, name);
    ZeroedArrayBans(slots, refs, RefsOf(ctx), name);
    ReleaseKeepsOthers(slots, name, VertexArrayType);
    assert RecordEmpty(ZERO_ARRAY);
    DroppingKeepsRefs(slots, ctx.slots, RefsOf(ctx), name);
  }

  lemma BoundArrayResolves(slots: seq<Slot>, refs: Refs)
    requires |slots| == OBJECT_SLOT_COUNT && AllHeld(slots, refs, 0)
    ensures refs.arrayBinding == 0 || Resolves(slots, refs.arrayBinding, VertexArrayType)
  {
  }

  /** glGenVertexArrays keeps every reference valid. */
  method GenArrays(ctx: Context, count: int, names: array<nat>)
    requires RefsValid(ctx) && count <= names.Length
    modifies ctx`slots, ctx`vertexArrays, ctx`pendingError, names
    ensures RefsValid(ctx) && ctx.vertexArrayBinding == old(ctx.vertexArrayBinding)
    ensures count < 0 ==> ctx.slots == old(ctx.slots) && View(ctx) == old(View(ctx))
    ensures 0 <= count ==>
              ((forall i :: 0 <= i < count ==> names[i] != 0) <==> count <= FreeSlots(old(ctx.slots), OBJECT_SLOT_COUNT))
    ensures 0 <= count && (forall i :: 0 <= i < count ==> names[i] != 0) ==>
              && Adds(old(ctx.slots), ctx.slots, names[..count], VertexArrayType)
              && View(ctx) == old(View(ctx)) + DefaultEntries(names[..count])
    ensures 0 <= count && (exists i :: 0 <= i < count && names[i] == 0) ==>
              Adds(old(ctx.slots), ctx.slots, [], VertexArrayType) && View(ctx) == old(View(ctx))
  {
    hide AllHeld, ViewOf;
    ghost var slots, refs := ctx.slots, RefsOf(ctx);
    GenVertexArrays(ctx, count, names);
    DefaultsKeepHeld(slots, refs, RefsOf(ctx));
    if count >= 0 {
      if forall i :: 0 <= i < count ==> names[i] != 0 {
        AddsKeepsRefs(slots, ctx.slots, RefsOf(ctx), names[..count], VertexArrayType);
      } else {
        AddsKeepsRefs(slots, ctx.slots, RefsOf(ctx), [], VertexArrayType);
      }
    }
  }

  lemma DefaultsKeepHeld(slots: seq<Slot>, refs: Refs, refs': Refs)
    requires |slots| == OBJECT_SLOT_COUNT && AllHeld(slots, refs, 0)
    requires refs' == refs.(records := refs'.records) && |refs'.records| == |refs.records|
    requires forall i :: 0 <= i < |refs.records| ==>
               refs'.records[i] == refs.records[i] || refs'.records[i] == DEFAULT_ARRAY
    ensures AllHeld(slots, refs', 0)
  {
    assert RecordEmpty(DEFAULT_ARRAY);
  }

  /** Every descriptor setter keeps every reference valid: the only new buffer
      name one can store is the bound one. */
  lemma SettersKeepHeld(slots: seq<Slot>, refs: Refs, refs': Refs, index: nat, d: Descriptor)
    requires |slots| == OBJECT_SLOT_COUNT && AllHeld(slots, refs, 0)
    requires index < |refs.working.descriptors|
    requires d.buffer == refs.working.descriptors[index].buffer || d.buffer == refs.arrayBuffer
    requires refs' == refs.(working := WithDescriptor(refs.working, index, d))
    ensures AllHeld(slots, refs', 0)
  {
  }

  /** glVertexAttribPointer keeps every reference valid. */
  method AttribPointer(ctx: Context, index: nat, size: int, componentType: nat, normalized: nat, stride: int, offset: nat)
    requires RefsValid(ctx)
    modifies ctx`attribs, ctx`pendingError
    ensures RefsValid(ctx)
    ensures var error := PointerError(index, size, componentType, normalized, stride, offset, ctx.arrayBuffer);
            SetterOutcome(ctx, error, index,
              if error != NoError then ZERO_DESCRIPTOR
              else Descriptor(old(ctx.attribs)[index].descriptor.enabled, size, componentType, normalized == 1, stride,
                              old(ctx.attribs)[index].descriptor.divisor, ctx.arrayBuffer, offset))
  {
    hide AllHeld;
    ghost var refs := RefsOf(ctx);
    VertexAttribPointer(ctx, index, size, componentType, normalized, stride, offset);
    assert RefsOf(ctx) == refs.(working := Working(ctx));
    if Working(ctx) != refs.working {
      SettersKeepHeld(ctx.slots, refs, RefsOf(ctx), index, ctx.attribs[index].descriptor);
    }
  }

  /** glEnableVertexAttribArray and glDisableVertexAttribArray. */
  method AttribEnabled(ctx: Context, index: nat, enabled: bool)
    requires RefsValid(ctx)
    modifies ctx`attribs, ctx`pendingError
    ensures RefsValid(ctx)
    ensures var error := if index < MAX_VERTEX_ATTRIBS then NoError else InvalidValue;
            SetterOutcome(ctx, error, index,
              if error == NoError then old(ctx.attribs)[index].descriptor.(enabled := enabled) else ZERO_DESCRIPTOR)
  {
    hide AllHeld;
    ghost var refs := RefsOf(ctx);
    SetEnabled(ctx, index, enabled);
    assert RefsOf(ctx) == refs.(working := Working(ctx));
    if Working(ctx) != refs.working {
      SettersKeepHeld(ctx.slots, refs, RefsOf(ctx), index, ctx.attribs[index].descriptor);
    }
  }

  /** glVertexAttribDivisorANGLE. */
  method AttribDivisor(ctx: Context, index: nat, divisor: nat)
    requires RefsValid(ctx)
    modifies ctx`attribs, ctx`pendingError
    ensures RefsValid(ctx)
    ensures var error := if !ctx.instancedArraysEnabled then InvalidOperation
                         else if index >= MAX_VERTEX_ATTRIBS then InvalidValue else NoError;
            SetterOutcome(ctx, error, index,
              if error == NoError then old(ctx.attribs)[index].descriptor.(divisor := divisor) else ZERO_DESCRIPTOR)
  {
    hide AllHeld;
    ghost var refs := RefsOf(ctx);
    VertexAttribDivisor(ctx, index, divisor);
    assert RefsOf(ctx) == refs.(working := Working(ctx));
    if Working(ctx) != refs.working {
      SettersKeepHeld(ctx.slots, refs, RefsOf(ctx), index, ctx.attribs[index].descriptor);
    }
  }

  /** glVertexAttrib4f: no vertex array and no reference changes. */
  method AttribCurrent(ctx: Context, index: nat, value: Vec4)
    requires RefsValid(ctx)
    modifies ctx`attribs, ctx`pendingError
    ensures RefsValid(ctx) && RefsOf(ctx) == old(RefsOf(ctx))
    ensures CurrentsOf(ctx.attribs) == if index < MAX_VERTEX_ATTRIBS then old(CurrentsOf(ctx.attribs))[index := value]
                                       else old(CurrentsOf(ctx.attribs))
  {
    SetCurrent(ctx, index, value);
  }
}
