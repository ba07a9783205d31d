/** Framebuffer attachments: attach, detach, delete, and the duplicate check of
    src/objects/framebuffer.c, with the texture side of deletion in
    src/objects/texture.c. */
module Framebuffers {
  import opened Limits
  import opened ContextState
  import opened ObjectTable
  import opened VertexArrays
  import opened References

  const COLOR_ATTACHMENT0: nat := 0x8ce0
  const DEPTH_ATTACHMENT: nat := 0x8d00
  const STENCIL_ATTACHMENT: nat := 0x8d20
  const DEPTH_STENCIL_ATTACHMENT: nat := 0x821a

  const NEGATIVE_Z: nat := 0x851a

  const FRAMEBUFFER: nat := 0x8d40
  const RENDERBUFFER: nat := 0x8d41

  const DEPTH_COMPONENT16: nat := 0x81a5
  const STENCIL_INDEX8: nat := 0x8d48

  predicate IsColor(attachment: nat) {
    COLOR_ATTACHMENT0 <= attachment < COLOR_ATTACHMENT0 + MAX_COLOR_ATTACHMENTS
  }

  predicate IsDepth(attachment: nat) {
    attachment == DEPTH_ATTACHMENT || attachment == STENCIL_ATTACHMENT || attachment == DEPTH_STENCIL_ATTACHMENT
  }

  predicate DepthFormatOk(format: nat, hasDepth: bool, hasStencil: bool) {
    if !hasDepth && !hasStencil then false
    else if format == DEPTH_COMPONENT16 || format == DEPTH_COMPONENT32F then hasDepth && !hasStencil
    else if format == STENCIL_INDEX8 then !hasDepth && hasStencil
    else format == DEPTH24_STENCIL8
  }

  /** The attachment points one call writes, and what it writes there. */
  function Attached(f: FramebufferObject, attachment: nat, a: Attachment): (r: FramebufferObject)
    requires |f.color| == MAX_COLOR_ATTACHMENTS
    ensures |r.color| == MAX_COLOR_ATTACHMENTS
  {
    if IsColor(attachment) then f.(color := f.color[attachment - COLOR_ATTACHMENT0 := a])
    else f.(depth := if attachment != STENCIL_ATTACHMENT then a else f.depth,
            stencil := if attachment != DEPTH_ATTACHMENT then a else f.stencil)
  }

  /** What is attached at the first point a call writes. */
  function At(f: FramebufferObject, attachment: nat): Attachment
    requires |f.color| == MAX_COLOR_ATTACHMENTS
  {
    if IsColor(attachment) then f.color[attachment - COLOR_ATTACHMENT0]
    else if attachment == STENCIL_ATTACHMENT then f.stencil else f.depth
  }

  method SetFramebuffer(ctx: Context, index: nat, f: FramebufferObject)
    requires RefsValid(ctx) && index < OBJECT_SLOT_COUNT
    requires FramebufferHeld(ctx.slots, f, 0) && ctx.slots[index].kind == FramebufferType
    modifies ctx`framebuffers
    ensures RefsValid(ctx) && ctx.framebuffers == old(ctx.framebuffers)[index := f]
  {
    ctx.framebuffers := ctx.framebuffers[index := f];
  }

  lemma BoundFramebuffer(ctx: Context, index: nat)
    requires RefsValid(ctx) && index < OBJECT_SLOT_COUNT
    ensures |ctx.framebuffers| == OBJECT_SLOT_COUNT && FramebufferHeld(ctx.slots, ctx.framebuffers[index], 0)
  {
  }

  predicate IsLive(slots: seq<Slot>, name: nat, kind: ObjectType)
    requires |slots| == OBJECT_SLOT_COUNT
  {
    Resolves(slots, name, kind) && slots[Lookup(slots, name, kind)].state == Live
  }

  /** The errors of ringl_framebuffer_texture_2d that do not look at the texture's
      record, in the order of its checks. */
  function TextureArgumentError(ctx: Context, target: nat, attachment: nat, textarget: nat, texture: nat, level: int): Error
    requires |ctx.slots| == OBJECT_SLOT_COUNT
    reads ctx`slots, ctx`drawBuffersEnabled, ctx`framebufferBinding
  {
    if target != FRAMEBUFFER || (!IsColor(attachment) && !IsDepth(attachment)) ||
       (textarget != TEXTURE_2D && !(IsColor(attachment) && POSITIVE_X <= textarget <= NEGATIVE_Z)) then InvalidEnum
    else if IsColor(attachment) && attachment != COLOR_ATTACHMENT0 && !ctx.drawBuffersEnabled then InvalidEnum
    else if level < 0 || level >= MAX_TEXTURE_MIP_LEVELS then InvalidValue
    else if !Resolves(ctx.slots, ctx.framebufferBinding, FramebufferType) then InvalidOperation
    else if texture != 0 && !IsLive(ctx.slots, texture, TextureType) then InvalidOperation
    else NoError
  }

  /** The error of ringl_framebuffer_texture_2d. */
  function TextureError(ctx: Context, target: nat, attachment: nat, textarget: nat, texture: nat, level: int): Error
    requires |ctx.slots| == |ctx.textures| == OBJECT_SLOT_COUNT
    reads ctx`slots, ctx`textures, ctx`drawBuffersEnabled, ctx`framebufferBinding
  {
    var error := TextureArgumentError(ctx, target, attachment, textarget, texture, level);
    if error != NoError || texture == 0 then error
    else RecordMismatch(ctx.textures[Lookup(ctx.slots, texture, TextureType)], attachment, textarget)
  }

  /** The part of it that looks at the record. */
  function RecordMismatch(record: TextureObject, attachment: nat, textarget: nat): Error {
    if IsColor(attachment) then
      if record.target == (if textarget == TEXTURE_2D then TEXTURE_2D else TEXTURE_CUBE_MAP) then NoError
      else InvalidOperation
    else if record.defined && !DepthFormatOk(record.format, attachment != STENCIL_ATTACHMENT, attachment != DEPTH_ATTACHMENT)
    then InvalidOperation
    else NoError
  }

  /** Does the call make the texture a colour target? It does so before it looks at
      the texture's own target, so a call may do this and still fail. */
  predicate WantsColorTarget(ctx: Context, target: nat, attachment: nat, textarget: nat, texture: nat, level: int)
    requires |ctx.slots| == OBJECT_SLOT_COUNT
    reads ctx`slots, ctx`drawBuffersEnabled, ctx`framebufferBinding
  {
    texture != 0 && IsColor(attachment) && TextureArgumentError(ctx, target, attachment, textarget, texture, level) == NoError
  }

  /** ringl_texture_require_color_target on a record: the first time, the image made
      for sampling goes. */
  function ColorTarget(t: TextureObject): TextureObject {
    if t.requiresColorTarget then t else t.(requiresColorTarget := true, image := 0)
  }

  lemma ColorTargetIsNoMismatch(t: TextureObject, attachment: nat, textarget: nat)
    ensures RecordMismatch(ColorTarget(t), attachment, textarget) == RecordMismatch(t, attachment, textarget)
  {
  }

  method RequireColorTarget(ctx: Context, texture: nat)
    requires |ctx.slots| == |ctx.textures| == OBJECT_SLOT_COUNT && Resolves(ctx.slots, texture, TextureType)
    modifies ctx`textures, ctx.backend
    ensures var k := Lookup(ctx.slots, texture, TextureType);
            && |old(ctx.textures)| == OBJECT_SLOT_COUNT
            && ctx.textures == old(ctx.textures)[k := ColorTarget(old(ctx.textures)[k])]
            && ctx.backend.objects == if old(ctx.textures)[k].requiresColorTarget then old(ctx.backend.objects)
                                      else Without(old(ctx.backend.objects), old(ctx.textures)[k].image)
  {
    var k := Lookup(ctx.slots, texture, TextureType);
    if !ctx.textures[k].requiresColorTarget {
      ctx.textures := ctx.textures[k := ctx.textures[k].(requiresColorTarget := true)];
      ctx.backend.DestroyObject(ctx.textures[k].image);
      ctx.textures := ctx.textures[k := ctx.textures[k].(image := 0)];
    }
  }

  /** What attaching a texture, or zero, makes of a framebuffer. */
  function TextureAttached(f: FramebufferObject, attachment: nat, textarget: nat, texture: nat, level: nat): FramebufferObject
    requires |f.color| == MAX_COLOR_ATTACHMENTS
  {
    var layer := if textarget < POSITIVE_X then 0 else textarget - POSITIVE_X;
    Attached(f, attachment, if texture == 0 then NO_ATTACHMENT else Attachment(TextureAttachment, texture, level, layer))
  }

  /** Attaching a texture, or with zero detaching whatever is there. A rejected call
      leaves every framebuffer alone; it leaves textures and backend alone too
      unless it got as far as the texture's target at a colour point. */
  method FramebufferTexture2D(ctx: Context, target: nat, attachment: nat, textarget: nat, texture: nat, level: int)
    requires RefsValid(ctx) && |ctx.textures| == OBJECT_SLOT_COUNT
    modifies ctx`framebuffers, ctx`textures, ctx`pendingError, ctx.backend
    ensures RefsValid(ctx) && |ctx.textures| == OBJECT_SLOT_COUNT
    ensures var k := Lookup(ctx.slots, texture, TextureType);
            if WantsColorTarget(ctx, target, attachment, textarget, texture, level) then
              && ctx.textures == old(ctx.textures)[k := ColorTarget(old(ctx.textures)[k])]
              && ctx.backend.objects == if old(ctx.textures)[k].requiresColorTarget then old(ctx.backend.objects)
                                        else Without(old(ctx.backend.objects), old(ctx.textures)[k].image)
            else ctx.textures == old(ctx.textures) && ctx.backend.objects == old(ctx.backend.objects)
    ensures var error := old(TextureError(ctx, target, attachment, textarget, texture, level));
            && ctx.pendingError == Context.Pending(old(ctx.pendingError), error)
            && ctx.framebuffers
                 == if error != NoError then old(ctx.framebuffers)
                    else var index := Lookup(ctx.slots, ctx.framebufferBinding, FramebufferType);
                         old(ctx.framebuffers)[index := TextureAttached(old(ctx.framebuffers)[index], attachment, textarget, texture, level)]
  {
    hide AllHeld, RecordMismatch, ColorTarget, RefsOf;
    var error := TextureArgumentError(ctx, target, attachment, textarget, texture, level);
    if error != NoError {
      ctx.RecordError(error);
      return;
    }
    var index := Lookup(ctx.slots, ctx.framebufferBinding, FramebufferType);
    BoundFramebuffer(ctx, index);
    var f := ctx.framebuffers[index];
    if texture == 0 {
      SetFramebuffer(ctx, index, Attached(f, attachment, NO_ATTACHMENT));
      return;
    }
    ColorTargetIsNoMismatch(ctx.textures[Lookup(ctx.slots, texture, TextureType)], attachment, textarget);
    if IsColor(attachment) {
      RequireColorTarget(ctx, texture);
    }
    error := RecordMismatch(ctx.textures[Lookup(ctx.slots, texture, TextureType)], attachment, textarget);
    if error != NoError {
      ctx.RecordError(error);
      return;
    }
    var layer := if IsColor(attachment) && textarget != TEXTURE_2D then textarget - POSITIVE_X else 0;
    SetFramebuffer(ctx, index, Attached(f, attachment, Attachment(TextureAttachment, texture, level, layer)));
  }

  function RenderbufferError(ctx: Context, target: nat, attachment: nat, renderbufferTarget: nat, renderbuffer: nat): Error
    requires |ctx.slots| == |ctx.renderbuffers| == OBJECT_SLOT_COUNT
    reads ctx`slots, ctx`renderbuffers, ctx`drawBuffersEnabled, ctx`framebufferBinding
  {
    if target != FRAMEBUFFER || (!IsColor(attachment) && !IsDepth(attachment)) || renderbufferTarget != RENDERBUFFER then InvalidEnum
    else if IsColor(attachment) && attachment != COLOR_ATTACHMENT0 && !ctx.drawBuffersEnabled then InvalidEnum
    else if !Resolves(ctx.slots, ctx.framebufferBinding, FramebufferType) then InvalidOperation
    else if renderbuffer == 0 then NoError
    else if !IsLive(ctx.slots, renderbuffer, RenderbufferType) then InvalidOperation
    else
      var record := ctx.renderbuffers[Lookup(ctx.slots, renderbuffer, RenderbufferType)];
      if IsDepth(attachment) && record.defined &&
         !DepthFormatOk(record.internalFormat, attachment != STENCIL_ATTACHMENT, attachment != DEPTH_ATTACHMENT)
      then InvalidOperation
      else NoError
  }

  function RenderbufferAttached(f: FramebufferObject, attachment: nat, renderbuffer: nat): FramebufferObject
    requires |f.color| == MAX_COLOR_ATTACHMENTS
  {
    var layer := if IsColor(attachment) then At(f, attachment).arrayLayer else 0;
    Attached(f, attachment, if renderbuffer == 0 then NO_ATTACHMENT else Attachment(RenderbufferAttachment, renderbuffer, 0, layer))
  }

  /** As the code has it, attaching a renderbuffer to a colour point leaves that
      point's array layer from whatever was attached before. */
  method FramebufferRenderbuffer(ctx: Context, target: nat, attachment: nat, renderbufferTarget: nat, renderbuffer: nat)
    requires RefsValid(ctx) && |ctx.renderbuffers| == OBJECT_SLOT_COUNT
    modifies ctx`framebuffers, ctx`pendingError
    ensures RefsValid(ctx)
    ensures var error := RenderbufferError(ctx, target, attachment, renderbufferTarget, renderbuffer);
            && ctx.pendingError == Context.Pending(old(ctx.pendingError), error)
            && ctx.framebuffers
                 == if error != NoError then old(ctx.framebuffers)
                    else var index := Lookup(ctx.slots, ctx.framebufferBinding, FramebufferType);
                         old(ctx.framebuffers)[index := RenderbufferAttached(old(ctx.framebuffers)[index], attachment, renderbuffer)]
  {
    hide AllHeld;
    var error := RenderbufferError(ctx, target, attachment, renderbufferTarget, renderbuffer);
    if error != NoError {
      ctx.RecordError(error);
      return;
    }
    var index := Lookup(ctx.slots, ctx.framebufferBinding, FramebufferType);
    BoundFramebuffer(ctx, index);
    var f := ctx.framebuffers[index];
    if renderbuffer == 0 {
      SetFramebuffer(ctx, index, Attached(f, attachment, NO_ATTACHMENT));
    } else {
      var layer := if IsColor(attachment) then At(f, attachment).arrayLayer else 0;
      SetFramebuffer(ctx, index, Attached(f, attachment, Attachment(RenderbufferAttachment, renderbuffer, 0, layer)));
    }
  }

  // ------------------------------------------------------------------- bind

  function BindTextureError(ctx: Context, target: nat, texture: nat): Error
    requires |ctx.slots| == |ctx.textures| == OBJECT_SLOT_COUNT
    reads ctx`slots, ctx`textures, ctx`activeTextureUnit
  {
    if target != TEXTURE_2D && target != TEXTURE_CUBE_MAP then InvalidEnum
    else if ctx.activeTextureUnit >= MAX_TEXTURE_UNITS then InvalidOperation
    else if texture == 0 then NoError
    else if !Resolves(ctx.slots, texture, TextureType) then InvalidOperation
    else
      var record := ctx.textures[Lookup(ctx.slots, texture, TextureType)];
      if record.target != 0 && record.target != target then InvalidOperation else NoError
  }

  /** The first bind fixes a texture's target; later binds must agree with it. */
  method BindTexture(ctx: Context, target: nat, texture: nat)
    requires RefsValid(ctx) && |ctx.textures| == OBJECT_SLOT_COUNT
    modifies ctx`slots, ctx`textures, ctx`boundTexture2D, ctx`boundTextureCube, ctx`pendingError
    ensures RefsValid(ctx) && SameNames(old(ctx.slots), ctx.slots)
    ensures var error := old(BindTextureError(ctx, target, texture));
            if error != NoError then
              && ctx.pendingError == Context.Pending(old(ctx.pendingError), error) && ctx.textures == old(ctx.textures)
              && ctx.boundTexture2D == old(ctx.boundTexture2D) && ctx.boundTextureCube == old(ctx.boundTextureCube)
            else
              && ctx.pendingError == old(ctx.pendingError)
              && ctx.boundTexture2D == (if target == TEXTURE_2D then old(ctx.boundTexture2D)[ctx.activeTextureUnit := texture]
                                        else old(ctx.boundTexture2D))
              && ctx.boundTextureCube == (if target == TEXTURE_CUBE_MAP then old(ctx.boundTextureCube)[ctx.activeTextureUnit := texture]
                                          else old(ctx.boundTextureCube))
              && ctx.textures == (if texture == 0 then old(ctx.textures)
                                  else var k := Lookup(ctx.slots, texture, TextureType);
                                       old(ctx.textures)[k := old(ctx.textures)[k].(target := target)])
  {
    hide AllHeld;
    RefsUnfold(ctx);
    var error := BindTextureError(ctx, target, texture);
    if error != NoError {
      ctx.RecordError(error);
      return;
    }
    if texture != 0 {
      var k := Lookup(ctx.slots, texture, TextureType);
      ctx.textures := ctx.textures[k := ctx.textures[k].(target := target)];
      PromoteHeld(ctx, texture, TextureType);
    }
    SetUnit(ctx, target == TEXTURE_CUBE_MAP, texture);
  }

  method SetUnit(ctx: Context, cube: bool, texture: nat)
    requires RefsValid(ctx) && Held(ctx.slots, texture, TextureType, 0) && ctx.activeTextureUnit < MAX_TEXTURE_UNITS
    modifies ctx`boundTexture2D, ctx`boundTextureCube
    ensures RefsValid(ctx)
    ensures |old(ctx.boundTexture2D)| == |old(ctx.boundTextureCube)| == MAX_TEXTURE_UNITS
    ensures ctx.boundTexture2D == if cube then old(ctx.boundTexture2D) else old(ctx.boundTexture2D)[ctx.activeTextureUnit := texture]
    ensures ctx.boundTextureCube == if cube then old(ctx.boundTextureCube)[ctx.activeTextureUnit := texture] else old(ctx.boundTextureCube)
  {
    hide RecordHeld, FramebufferHeld;
    if cube {
      ctx.boundTextureCube := ctx.boundTextureCube[ctx.activeTextureUnit := texture];
    } else {
      ctx.boundTexture2D := ctx.boundTexture2D[ctx.activeTextureUnit := texture];
    }
  }

  method SetFramebufferBinding(ctx: Context, framebuffer: nat)
    requires RefsValid(ctx) && Held(ctx.slots, framebuffer, FramebufferType, 0)
    modifies ctx`framebufferBinding
    ensures RefsValid(ctx) && ctx.framebufferBinding == framebuffer
  {
    ctx.framebufferBinding := framebuffer;
  }

  method BindFramebuffer(ctx: Context, target: nat, framebuffer: nat)
    requires RefsValid(ctx)
    modifies ctx`slots, ctx`framebufferBinding, ctx`pendingError
    ensures RefsValid(ctx) && SameNames(old(ctx.slots), ctx.slots)
    ensures var error := if target != FRAMEBUFFER then InvalidEnum
                         else if !Held(old(ctx.slots), framebuffer, FramebufferType, 0) then InvalidOperation else NoError;
            if error == NoError then ctx.framebufferBinding == framebuffer && ctx.pendingError == old(ctx.pendingError)
            else ctx.framebufferBinding == old(ctx.framebufferBinding) && ctx.pendingError == Context.Pending(old(ctx.pendingError), error)
  {
    hide AllHeld;
    if target != FRAMEBUFFER {
      ctx.RecordError(InvalidEnum);
      return;
    }
    var ok := AdoptName(ctx, framebuffer, FramebufferType);
    if ok {
      SetFramebufferBinding(ctx, framebuffer);
    }
  }

  method SetRenderbufferBinding(ctx: Context, renderbuffer: nat)
    requires RefsValid(ctx) && Held(ctx.slots, renderbuffer, RenderbufferType, 0)
    modifies ctx`renderbufferBinding
    ensures RefsValid(ctx) && ctx.renderbufferBinding == renderbuffer
  {
    ctx.renderbufferBinding := renderbuffer;
  }

  method BindRenderbuffer(ctx: Context, target: nat, renderbuffer: nat)
    requires RefsValid(ctx)
    modifies ctx`slots, ctx`renderbufferBinding, ctx`pendingError
    ensures RefsValid(ctx) && SameNames(old(ctx.slots), ctx.slots)
    ensures var error := if target != RENDERBUFFER then InvalidEnum
                         else if !Held(old(ctx.slots), renderbuffer, RenderbufferType, 0) then InvalidOperation else NoError;
            if error == NoError then ctx.renderbufferBinding == renderbuffer && ctx.pendingError == old(ctx.pendingError)
            else ctx.renderbufferBinding == old(ctx.renderbufferBinding) && ctx.pendingError == Context.Pending(old(ctx.pendingError), error)
  {
    hide AllHeld;
    if target != RENDERBUFFER {
      ctx.RecordError(InvalidEnum);
      return;
    }
    var ok := AdoptName(ctx, renderbuffer, RenderbufferType);
    if ok {
      SetRenderbufferBinding(ctx, renderbuffer);
    }
  }

  // ----------------------------------------------------------------- detach

  function Detached(a: Attachment, kind: AttachmentKind, name: nat): Attachment {
    if a.kind == kind && a.name == name then NO_ATTACHMENT else a
  }

  function DetachedAll(f: FramebufferObject, kind: AttachmentKind, name: nat): FramebufferObject {
    FramebufferObject(
      seq(|f.color|, i requires 0 <= i < |f.color| => Detached(f.color[i], kind, name)),
      Detached(f.depth, kind, name), Detached(f.stencil, kind, name))
  }

  method DetachFrom(f: FramebufferObject, kind: AttachmentKind, name: nat) returns (r: FramebufferObject)
    requires |f.color| == MAX_COLOR_ATTACHMENTS
    ensures r == DetachedAll(f, kind, name)
  {
    r := f;
    var attachment := 0;
    while attachment < MAX_COLOR_ATTACHMENTS
      invariant attachment <= MAX_COLOR_ATTACHMENTS && |r.color| == MAX_COLOR_ATTACHMENTS
      invariant r.depth == f.depth && r.stencil == f.stencil
      invariant forall i :: 0 <= i < attachment ==> r.color[i] == Detached(f.color[i], kind, name)
      invariant forall i :: attachment <= i < MAX_COLOR_ATTACHMENTS ==> r.color[i] == f.color[i]
    {
      if r.color[attachment].kind == kind && r.color[attachment].name == name {
        r := r.(color := r.color[attachment := NO_ATTACHMENT]);
      }
      attachment := attachment + 1;
    }
    if r.depth.kind == kind && r.depth.name == name {
      r := r.(depth := NO_ATTACHMENT);
    }
    if r.stencil.kind == kind && r.stencil.name == name {
      r := r.(stencil := NO_ATTACHMENT);
    }
    assert r.color == DetachedAll(f, kind, name).color;
  }

  /** ringl_framebuffer_detach_texture and _renderbuffer: every framebuffer is
      visited, bound or not. */
  method DetachEverywhere(ctx: Context, kind: AttachmentKind, name: nat)
    requires |ctx.slots| == |ctx.framebuffers| == OBJECT_SLOT_COUNT
    requires forall i :: 0 <= i < OBJECT_SLOT_COUNT ==> |ctx.framebuffers[i].color| == MAX_COLOR_ATTACHMENTS
    modifies ctx`framebuffers
    ensures |ctx.framebuffers| == OBJECT_SLOT_COUNT
    ensures forall i :: 0 <= i < OBJECT_SLOT_COUNT ==>
              ctx.framebuffers[i] == if ctx.slots[i].kind == FramebufferType && ctx.slots[i].state != Free
                                     then DetachedAll(old(ctx.framebuffers)[i], kind, name) else old(ctx.framebuffers)[i]
  {
    var index := 0;
    while index < OBJECT_SLOT_COUNT
      invariant index <= OBJECT_SLOT_COUNT && |ctx.framebuffers| == OBJECT_SLOT_COUNT
      invariant forall i :: 0 <= i < index ==>
        ctx.framebuffers[i] == if ctx.slots[i].kind == FramebufferType && ctx.slots[i].state != Free
                               then DetachedAll(old(ctx.framebuffers)[i], kind, name) else old(ctx.framebuffers)[i]
      invariant forall i :: index <= i < OBJECT_SLOT_COUNT ==> ctx.framebuffers[i] == old(ctx.framebuffers)[i]
    {
      if ctx.slots[index].kind == FramebufferType && ctx.slots[index].state != Free {
        var detached := DetachFrom(ctx.framebuffers[index], kind, name);
        ctx.framebuffers := ctx.framebuffers[index := detached];
      }
      index := index + 1;
    }
  }

  /** Which object type an attachment kind names. */
  function KindType(kind: AttachmentKind): ObjectType {
    match kind
    case NoAttachment => NoType
    case TextureAttachment => TextureType
    case RenderbufferAttachment => RenderbufferType
  }

  lemma DetachingBans(slots: seq<Slot>, f: FramebufferObject, kind: AttachmentKind, name: nat)
    requires |slots| == OBJECT_SLOT_COUNT && kind != NoAttachment && Resolves(slots, name, KindType(kind))
    requires FramebufferHeld(slots, f, 0)
    ensures FramebufferHeld(slots, DetachedAll(f, kind, name), name)
    ensures f == ZERO_FRAMEBUFFER ==> FramebufferHeld(slots, f, name)
  {
    BanOthers(slots, name, KindType(kind));
  }

  // ----------------------------------------------------------------- delete

  /** Detaching an object everywhere bans its name from every framebuffer. */
  lemma DetachedEverywhere(slots: seq<Slot>, refs: Refs, refs': Refs, kind: AttachmentKind, name: nat)
    requires TableValid(slots) && AllHeld(slots, refs, 0)
    requires kind != NoAttachment && Resolves(slots, name, KindType(kind))
    requires |refs'.framebuffers| == OBJECT_SLOT_COUNT
    requires forall i :: 0 <= i < OBJECT_SLOT_COUNT ==>
               refs'.framebuffers[i] == if slots[i].kind == FramebufferType && slots[i].state != Free
                                        then DetachedAll(refs.framebuffers[i], kind, name) else refs.framebuffers[i]
    requires SameBufferRefs(refs, refs') && refs'.framebufferBinding == refs.framebufferBinding
    requires UnitsHeld(slots, refs'.units2D, name) && UnitsHeld(slots, refs'.unitsCube, name)
    requires Held(slots, refs'.renderbufferBinding, RenderbufferType, name)
    ensures AllHeld(slots, refs', name)
  {
    NamesRoundTrip(0, 0, name);
    BanOthers(slots, name, KindType(kind));
    RecordsIgnoreTextures(slots, refs.working, name, KindType(kind));
    RecordsIgnoreTextures(slots, refs.defaultArray, name, KindType(kind));
    forall i | 0 <= i < OBJECT_SLOT_COUNT
      ensures RecordHeld(slots, refs'.records[i], name)
      ensures FramebufferHeld(slots, refs'.framebuffers[i], name)
    {
      RecordsIgnoreTextures(slots, refs.records[i], name, KindType(kind));
      DetachingBans(slots, refs.framebuffers[i], kind, name);
    }
  }

  ghost predicate SameBufferRefs(a: Refs, b: Refs) {
    && a.arrayBuffer == b.arrayBuffer
    && a.working == b.working
    && a.defaultArray == b.defaultArray
    && a.records == b.records
    && a.arrayBinding == b.arrayBinding
  }

  /** The parts of the invariant that deletion works on. */
  lemma RefsUnfold(ctx: Context)
    requires RefsValid(ctx)
    ensures FramebuffersHeld(ctx.slots, ctx.framebuffers, 0)
    ensures UnitsHeld(ctx.slots, ctx.boundTexture2D, 0) && UnitsHeld(ctx.slots, ctx.boundTextureCube, 0)
    ensures Held(ctx.slots, ctx.renderbufferBinding, RenderbufferType, 0)
  {
  }

  /** The units that held a name hold zero; the others keep theirs. */
  predicate UnitsCleared(before: seq<nat>, after: seq<nat>, name: nat) {
    |after| == |before| && forall u :: 0 <= u < |before| ==> after[u] == if before[u] == name then 0 else before[u]
  }

  method ClearUnits(units: seq<nat>, name: nat) returns (r: seq<nat>)
    requires |units| == MAX_TEXTURE_UNITS
    ensures |r| == MAX_TEXTURE_UNITS
    ensures forall u :: 0 <= u < MAX_TEXTURE_UNITS ==> r[u] == if units[u] == name then 0 else units[u]
  {
    r := units;
    var unit := 0;
    while unit < MAX_TEXTURE_UNITS
      invariant unit <= MAX_TEXTURE_UNITS && |r| == MAX_TEXTURE_UNITS
      invariant forall u :: 0 <= u < unit ==> r[u] == if units[u] == name then 0 else units[u]
      invariant forall u :: unit <= u < MAX_TEXTURE_UNITS ==> r[u] == units[u]
    {
      if r[unit] == name {
        r := r[unit := 0];
      }
      unit := unit + 1;
    }
  }

  /** ringl_delete_textures before the storage goes: no framebuffer, bound or
      not, and no texture unit refers to the texture any more. */
  method UnbindTexture(ctx: Context, name: nat)
    requires RefsValid(ctx) && Resolves(ctx.slots, name, TextureType)
    modifies ctx`framebuffers, ctx`boundTexture2D, ctx`boundTextureCube
    ensures ArraysValid(ctx) && AllHeld(ctx.slots, RefsOf(ctx), name)
    ensures |ctx.framebuffers| == OBJECT_SLOT_COUNT
    ensures forall i :: 0 <= i < OBJECT_SLOT_COUNT ==> |old(ctx.framebuffers)[i].color| == MAX_COLOR_ATTACHMENTS
    ensures forall i :: 0 <= i < OBJECT_SLOT_COUNT ==>
              ctx.framebuffers[i] == DetachedAll(old(ctx.framebuffers)[i], TextureAttachment, name)
    ensures UnitsCleared(old(ctx.boundTexture2D), ctx.boundTexture2D, name)
    ensures UnitsCleared(old(ctx.boundTextureCube), ctx.boundTextureCube, name)
  {
    hide AllHeld;
    ghost var refs := RefsOf(ctx);
    RefsUnfold(ctx);
    DetachEverywhere(ctx, TextureAttachment, name);
    ctx.boundTexture2D := ClearUnits(ctx.boundTexture2D, name);
    ctx.boundTextureCube := ClearUnits(ctx.boundTextureCube, name);
    BanOthers(ctx.slots, name, TextureType);
    DetachedEverywhere(ctx.slots, refs, RefsOf(ctx), TextureAttachment, name);
    forall i | 0 <= i < OBJECT_SLOT_COUNT && ctx.slots[i].kind != FramebufferType
      ensures DetachedAll(ZERO_FRAMEBUFFER, TextureAttachment, name) == ZERO_FRAMEBUFFER
    {
      assert DetachedAll(ZERO_FRAMEBUFFER, TextureAttachment, name).color == ZERO_FRAMEBUFFER.color;
    }
  }

  /** The same for a renderbuffer: its attachments and its binding go. */
  method UnbindRenderbuffer(ctx: Context, name: nat)
    requires RefsValid(ctx) && Resolves(ctx.slots, name, RenderbufferType)
    modifies ctx`framebuffers, ctx`renderbufferBinding
    ensures ArraysValid(ctx) && AllHeld(ctx.slots, RefsOf(ctx), name)
    ensures ctx.renderbufferBinding == if old(ctx.renderbufferBinding) == name then 0 else old(ctx.renderbufferBinding)
    ensures |ctx.framebuffers| == OBJECT_SLOT_COUNT
    ensures forall i :: 0 <= i < OBJECT_SLOT_COUNT ==> |old(ctx.framebuffers)[i].color| == MAX_COLOR_ATTACHMENTS
    ensures forall i :: 0 <= i < OBJECT_SLOT_COUNT ==>
              ctx.framebuffers[i] == DetachedAll(old(ctx.framebuffers)[i], RenderbufferAttachment, name)
  {
    hide AllHeld;
    ghost var refs := RefsOf(ctx);
    RefsUnfold(ctx);
    DetachEverywhere(ctx, RenderbufferAttachment, name);
    if ctx.renderbufferBinding == name {
      ctx.renderbufferBinding := 0;
    }
    BanOthers(ctx.slots, name, RenderbufferType);
    DetachedEverywhere(ctx.slots, refs, RefsOf(ctx), RenderbufferAttachment, name);
    forall i | 0 <= i < OBJECT_SLOT_COUNT && ctx.slots[i].kind != FramebufferType
      ensures DetachedAll(ZERO_FRAMEBUFFER, RenderbufferAttachment, name) == ZERO_FRAMEBUFFER
    {
      assert DetachedAll(ZERO_FRAMEBUFFER, RenderbufferAttachment, name).color == ZERO_FRAMEBUFFER.color;
    }
  }

  /** ringl_delete_renderbuffers, one name. */
  method DeleteRenderbuffer(ctx: Context, name: nat)
    requires RefsValid(ctx) && |ctx.renderbuffers| == OBJECT_SLOT_COUNT
    modifies ctx`framebuffers, ctx`renderbufferBinding, ctx`renderbuffers, ctx`slots
    ensures RefsValid(ctx) && |ctx.renderbuffers| == OBJECT_SLOT_COUNT
    ensures forall k :: old(Resolves(ctx.slots, name, RenderbufferType)) ==> !Resolves(ctx.slots, name, k)
    ensures forall n, k :: n != name ==> Lookup(ctx.slots, n, k) == Lookup(old(ctx.slots), n, k)
    ensures var index := Lookup(old(ctx.slots), name, RenderbufferType);
            if name == 0 || index == OBJECT_SLOT_COUNT then
              && ctx.slots == old(ctx.slots) && ctx.framebuffers == old(ctx.framebuffers) && ctx.renderbuffers == old(ctx.renderbuffers)
              && ctx.renderbufferBinding == old(ctx.renderbufferBinding)
            else
              && ctx.slots == Released(old(ctx.slots), index)
              && ctx.renderbuffers == old(ctx.renderbuffers)[index := ZERO_RENDERBUFFER]
              && ctx.renderbufferBinding == (if old(ctx.renderbufferBinding) == name then 0 else old(ctx.renderbufferBinding))
              && forall i :: 0 <= i < OBJECT_SLOT_COUNT ==>
                   && |old(ctx.framebuffers)[i].color| == MAX_COLOR_ATTACHMENTS
                   && ctx.framebuffers[i] == DetachedAll(old(ctx.framebuffers)[i], RenderbufferAttachment, name)
  {
    hide AllHeld, DetachedAll;
    if name == 0 || !Resolves(ctx.slots, name, RenderbufferType) {
      NamesRoundTrip(0, 0, 0);
      return;
    }
    UnbindRenderbuffer(ctx, name);
    ctx.renderbuffers := ctx.renderbuffers[Lookup(ctx.slots, name, RenderbufferType) := ZERO_RENDERBUFFER];
    ReleaseUnreferenced(ctx, name, RenderbufferType);
  }

  /** ringl_delete_framebuffers, one name. */
  method DeleteFramebuffer(ctx: Context, name: nat)
    requires RefsValid(ctx)
    modifies ctx`framebuffers, ctx`framebufferBinding, ctx`slots
    ensures RefsValid(ctx)
    ensures forall k :: old(Resolves(ctx.slots, name, FramebufferType)) ==> !Resolves(ctx.slots, name, k)
    ensures forall n, k :: n != name ==> Lookup(ctx.slots, n, k) == Lookup(old(ctx.slots), n, k)
    ensures var index := Lookup(old(ctx.slots), name, FramebufferType);
            if name == 0 || index == OBJECT_SLOT_COUNT then
              ctx.slots == old(ctx.slots) && ctx.framebuffers == old(ctx.framebuffers) && ctx.framebufferBinding == old(ctx.framebufferBinding)
            else
              && ctx.slots == Released(old(ctx.slots), index)
              && ctx.framebuffers == old(ctx.framebuffers)[index := ZERO_FRAMEBUFFER]
              && ctx.framebufferBinding == if old(ctx.framebufferBinding) == name then 0 else old(ctx.framebufferBinding)
  {
    if name == 0 || !Resolves(ctx.slots, name, FramebufferType) {
      NamesRoundTrip(0, 0, 0);
      return;
    }
    ghost var refs := RefsOf(ctx);
    if ctx.framebufferBinding == name {
      ctx.framebufferBinding := 0;
    }
    var index := Lookup(ctx.slots, name, FramebufferType);
    ctx.framebuffers := ctx.framebuffers[index := ZERO_FRAMEBUFFER];
    ZeroedFramebufferBans(ctx.slots, refs, RefsOf(ctx), name);
    ReleaseUnreferenced(ctx, name, FramebufferType);
  }

  lemma EmptyFramebufferHeld(slots: seq<Slot>, name: nat)
    requires |slots| == OBJECT_SLOT_COUNT
    ensures FramebufferHeld(slots, ZERO_FRAMEBUFFER, name)
  {
  }

  lemma ZeroedFramebufferBans(slots: seq<Slot>, refs: Refs, refs': Refs, name: nat)
    requires TableValid(slots) && AllHeld(slots, refs, 0) && Resolves(slots, name, FramebufferType)
    requires refs' == refs.(framebuffers := refs.framebuffers[Lookup(slots, name, FramebufferType) := ZERO_FRAMEBUFFER],
                            framebufferBinding := if refs.framebufferBinding == name then 0 else refs.framebufferBinding)
    ensures AllHeld(slots, refs', name)
  {
    hide RecordHeld, FramebufferHeld;
    NamesRoundTrip(0, 0, name);
    BanOthers(slots, name, FramebufferType);
    RecordsIgnoreTextures(slots, refs.working, name, FramebufferType);
    RecordsIgnoreTextures(slots, refs.defaultArray, name, FramebufferType);
    EmptyFramebufferHeld(slots, name);
    forall i | 0 <= i < OBJECT_SLOT_COUNT
      ensures RecordHeld(slots, refs.records[i], name)
      ensures FramebufferHeld(slots, refs.framebuffers[i], name)
    {
      RecordsIgnoreTextures(slots, refs.records[i], name, FramebufferType);
      FramebuffersIgnoreBuffers(slots, refs.framebuffers[i], name, FramebufferType);
    }
  }

  // --------------------------------------------------------- duplicate check

  /** Two colour points that draw into the same image: the same texture level
      and face, or the same renderbuffer. */
  predicate SameImage(a: Attachment, b: Attachment) {
    && a.kind != NoAttachment && a.kind == b.kind && a.name == b.name
    && (a.kind == TextureAttachment ==> a.level == b.level && a.arrayLayer == b.arrayLayer)
  }

  /** What the completeness check compares for every pair of colour points. */
  predicate ReportedSame(a: Attachment, b: Attachment) {
    a.kind != NoAttachment && a.kind == b.kind && a.name == b.name && a.level == b.level && a.arrayLayer == b.arrayLayer
  }

  /** The nested loop of ringl_check_framebuffer_status. */
  method HasDuplicate(color: seq<Attachment>) returns (found: bool)
    requires |color| == MAX_COLOR_ATTACHMENTS
    ensures found <==> exists i, j :: 0 <= j < i < MAX_COLOR_ATTACHMENTS && ReportedSame(color[j], color[i])
  {
    var attachment := 0;
    while attachment < MAX_COLOR_ATTACHMENTS
      invariant attachment <= MAX_COLOR_ATTACHMENTS
      invariant forall i, j :: 0 <= j < i < attachment ==> !ReportedSame(color[j], color[i])
    {
      if color[attachment].kind != NoAttachment {
        var previous := 0;
        while previous < attachment
          invariant previous <= attachment
          invariant forall j :: 0 <= j < previous ==> !ReportedSame(color[j], color[attachment])
        {
          if ReportedSame(color[previous], color[attachment]) {
            return true;
          }
          previous := previous + 1;
        }
      }
      attachment := attachment + 1;
    }
    return false;
  }
}
