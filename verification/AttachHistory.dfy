/** What the colour points of a framebuffer hold after any history of calls, and
    when the duplicate check of src/objects/framebuffer.c sees every duplicate. */
module AttachHistory {
  import opened Limits
  import opened StagingBlocks
  import opened ContextState
  import opened ContextLedger
  import opened ObjectTable
  import opened References
  import opened Framebuffers
  import opened TextureStorage
  import opened ContextLifetime
  import opened Session
  import opened NamingCalls

  /** What an accepted call means for the colour points of one framebuffer. */
  datatype Event =
    | Texture(point: nat, name: nat, level: nat, face: nat)
    | Renderbuffer(point: nat, name: nat)
    | Reset(point: nat)
    | Detach(kind: AttachmentKind, name: nat) // an object is deleted

  /** The stores of one call: a renderbuffer keeps the layer it finds. */
  function After(a: Attachment, e: Event, p: nat): Attachment {
    match e
    case Texture(point, name, level, face) => if point == p then Attachment(TextureAttachment, name, level, face) else a
    case Renderbuffer(point, name) => if point == p then Attachment(RenderbufferAttachment, name, 0, a.arrayLayer) else a
    case Reset(point) => if point == p then NO_ATTACHMENT else a
    case Detach(kind, name) => Detached(a, kind, name)
  }

  /** What point `p` of a fresh framebuffer holds after the first `n` events. */
  function Played(history: seq<Event>, n: nat, p: nat): Attachment
    requires n <= |history|
  {
    if n == 0 then NO_ATTACHMENT else After(Played(history, n - 1, p), history[n - 1], p)
  }

  function Play(history: seq<Event>): (color: seq<Attachment>)
    ensures |color| == MAX_COLOR_ATTACHMENTS
    ensures forall p :: 0 <= p < MAX_COLOR_ATTACHMENTS ==> color[p] == Played(history, |history|, p)
  {
    [Played(history, |history|, 0), Played(history, |history|, 1), Played(history, |history|, 2), Played(history, |history|, 3)]
  }

  // ------------------------------------------------- the history of one point

  predicate AttachesAt(e: Event, p: nat) { (e.Texture? || e.Renderbuffer?) && e.point == p }

  /** A reset of the point, or the deletion of what it holds. */
  predicate EmptiesAt(history: seq<Event>, i: nat, p: nat)
    requires i < |history|
  {
    var e := history[i];
    || (e.Reset? && e.point == p)
    || (e.Detach? && Played(history, i, p).kind == e.kind && Played(history, i, p).name == e.name)
  }

  /** Event `j` is the last that attached something to the point, and nothing has
      emptied the point since. */
  ghost predicate HeldBy(history: seq<Event>, n: nat, p: nat, j: nat)
    requires n <= |history|
  {
    j < n && AttachesAt(history[j], p) && forall i :: j < i < n ==> !AttachesAt(history[i], p) && !EmptiesAt(history, i, p)
  }

  /** Event `j` is the last cube face or 2D level attached to the point, and nothing
      has emptied the point since. */
  ghost predicate LayeredBy(history: seq<Event>, n: nat, p: nat, j: nat)
    requires n <= |history|
  {
    && j < n && history[j].Texture? && history[j].point == p
    && forall i :: j < i < n ==> !(history[i].Texture? && history[i].point == p) && !EmptiesAt(history, i, p)
  }

  /** The face a point was last given since it was last emptied, or zero. */
  ghost function Leftover(history: seq<Event>, p: nat): nat {
    if exists j: nat :: LayeredBy(history, |history|, p, j) then
      var j: nat :| LayeredBy(history, |history|, p, j);
      history[j].face
    else 0
  }

  /** A point holds what its last attaching event put there, if nothing has emptied
      it since, and otherwise nothing. */
  lemma {:induction false} HoldsTheLast(history: seq<Event>, n: nat, p: nat)
    requires n <= |history|
    ensures (forall j: nat :: !HeldBy(history, n, p, j)) ==> Played(history, n, p) == NO_ATTACHMENT
    ensures forall j: nat :: HeldBy(history, n, p, j) ==>
              var a, e := Played(history, n, p), history[j];
              && a.name == e.name
              && if e.Texture? then a.kind == TextureAttachment && a.level == e.level
                 else a.kind == RenderbufferAttachment && a.level == 0
  {
    if n > 0 {
      var last := n - 1;
      HoldsTheLast(history, last, p);
      forall j: nat
        ensures HeldBy(history, n, p, j) <==>
                  (j == last && AttachesAt(history[j], p))
                  || (HeldBy(history, last, p, j) && !AttachesAt(history[last], p) && !EmptiesAt(history, last, p))
      {
      }
    }
  }

  /** The layer of a point is the last face it was given since it was last emptied;
      a renderbuffer attached meanwhile does not change it. */
  lemma {:induction false} LayerIsTheLast(history: seq<Event>, n: nat, p: nat)
    requires n <= |history|
    ensures (forall j: nat :: !LayeredBy(history, n, p, j)) ==> Played(history, n, p).arrayLayer == 0
    ensures forall j: nat :: LayeredBy(history, n, p, j) ==> Played(history, n, p).arrayLayer == history[j].face
  {
    if n > 0 {
      var last := n - 1;
      var e := history[last];
      LayerIsTheLast(history, last, p);
      forall j: nat
        ensures LayeredBy(history, n, p, j) <==>
                  (j == last && e.Texture? && e.point == p)
                  || (LayeredBy(history, last, p, j) && !(e.Texture? && e.point == p) && !EmptiesAt(history, last, p))
      {
      }
    }
  }

  lemma LayerIsLeftover(history: seq<Event>, p: nat)
    ensures Played(history, |history|, p).arrayLayer == Leftover(history, p)
  {
    LayerIsTheLast(history, |history|, p);
  }

  // ------------------------------------------------------------- duplicates

  /** The point's last attachment, not emptied since, is renderbuffer `r`. */
  ghost predicate HoldsRenderbuffer(history: seq<Event>, p: nat, r: nat) {
    exists j: nat :: HeldBy(history, |history|, p, j) && history[j] == Renderbuffer(p, r)
  }

  lemma RenderbufferHeld(history: seq<Event>, p: nat)
    ensures var a := Played(history, |history|, p);
            && (a.kind == RenderbufferAttachment ==> a.level == 0 && HoldsRenderbuffer(history, p, a.name))
            && forall r :: HoldsRenderbuffer(history, p, r) ==> a.kind == RenderbufferAttachment && a.name == r
  {
    HoldsTheLast(history, |history|, p);
    var a := Played(history, |history|, p);
    if a.kind == RenderbufferAttachment {
      var j: nat :| HeldBy(history, |history|, p, j);
      assert history[j] == Renderbuffer(p, a.name);
    }
  }

  /** No two points hold one renderbuffer with different layers left over. */
  ghost predicate LeftoversAgree(history: seq<Event>) {
    forall p, q, r :: 0 <= p < q < MAX_COLOR_ATTACHMENTS && HoldsRenderbuffer(history, p, r) && HoldsRenderbuffer(history, q, r)
      ==> Leftover(history, p) == Leftover(history, q)
  }

  /** Every pair of points that draws into one image is one the check compares equal. */
  ghost predicate DuplicatesReported(color: seq<Attachment>)
    requires |color| == MAX_COLOR_ATTACHMENTS
  {
    forall p, q :: 0 <= p < q < MAX_COLOR_ATTACHMENTS && SameImage(color[p], color[q]) ==> ReportedSame(color[p], color[q])
  }

  /** Over any history: the check sees every duplicate if and only if no renderbuffer
      sits at two points whose last faces, since they were last emptied, differ; and
      it never reports two points that draw into different images. */
  lemma DuplicatesReportedExactly(history: seq<Event>)
    ensures DuplicatesReported(Play(history)) <==> LeftoversAgree(history)
    ensures forall p, q :: 0 <= p < q < MAX_COLOR_ATTACHMENTS && ReportedSame(Play(history)[p], Play(history)[q])
              ==> SameImage(Play(history)[p], Play(history)[q])
  {
    hide Leftover, HoldsRenderbuffer, Played;
    var color := Play(history);
    forall p | 0 <= p < MAX_COLOR_ATTACHMENTS
      ensures color[p].arrayLayer == Leftover(history, p)
      ensures color[p].kind == RenderbufferAttachment ==> color[p].level == 0 && HoldsRenderbuffer(history, p, color[p].name)
      ensures forall r :: HoldsRenderbuffer(history, p, r) ==> color[p].kind == RenderbufferAttachment && color[p].name == r
    {
      LayerIsLeftover(history, p);
      RenderbufferHeld(history, p);
    }
    if LeftoversAgree(history) {
      assert DuplicatesReported(color);
    }
    if DuplicatesReported(color) {
      forall p, q, r | 0 <= p < q < MAX_COLOR_ATTACHMENTS && HoldsRenderbuffer(history, p, r) && HoldsRenderbuffer(history, q, r)
        ensures Leftover(history, p) == Leftover(history, q)
      {
        assert SameImage(color[p], color[q]);
      }
    }
  }

  // ------------------------------------------------------------------- calls

  /** The calls that can change what a live framebuffer holds. */
  datatype AttachCall =
    | BindFramebuffer(target: nat, name: nat)
    | FramebufferTexture(target: nat, attachment: nat, textarget: nat, texture: nat, level: int)
    | FramebufferRenderbuffer(target: nat, attachment: nat, renderbufferTarget: nat, renderbuffer: nat)
    | DeleteTexture(name: nat)
    | DeleteRenderbuffer(name: nat)

  /** What a call means if it takes effect. */
  function EventsOf(c: AttachCall): seq<Event> {
    match c
    case BindFramebuffer(_, _) => []
    case FramebufferTexture(_, attachment, textarget, texture, level) =>
      if !IsColor(attachment) || level < 0 then []
      else if texture == 0 then [Reset(attachment - COLOR_ATTACHMENT0)]
      else [Texture(attachment - COLOR_ATTACHMENT0, texture, level, if textarget < POSITIVE_X then 0 else textarget - POSITIVE_X)]
    case FramebufferRenderbuffer(_, attachment, _, renderbuffer) =>
      if !IsColor(attachment) then []
      else if renderbuffer == 0 then [Reset(attachment - COLOR_ATTACHMENT0)]
      else [Renderbuffer(attachment - COLOR_ATTACHMENT0, renderbuffer)]
    case DeleteTexture(name) => [Detach(TextureAttachment, name)]
    case DeleteRenderbuffer(name) => [Detach(RenderbufferAttachment, name)]
  }

  ghost predicate Sizes(ctx: Context)
    reads ctx
  {
    |ctx.slots| == |ctx.textures| == |ctx.renderbuffers| == |ctx.framebuffers| == OBJECT_SLOT_COUNT
  }

  /** Whether it takes effect on the framebuffer in slot `k`: it is not rejected, and
      an attachment call needs that framebuffer bound. */
  ghost predicate Applies(ctx: Context, k: nat, c: AttachCall)
    requires Sizes(ctx)
    reads ctx
  {
    match c
    case BindFramebuffer(_, _) => false
    case FramebufferTexture(target, attachment, textarget, texture, level) =>
      && TextureError(ctx, target, attachment, textarget, texture, level) == NoError
      && Lookup(ctx.slots, ctx.framebufferBinding, FramebufferType) == k
    case FramebufferRenderbuffer(target, attachment, renderbufferTarget, renderbuffer) =>
      && RenderbufferError(ctx, target, attachment, renderbufferTarget, renderbuffer) == NoError
      && Lookup(ctx.slots, ctx.framebufferBinding, FramebufferType) == k
    case DeleteTexture(name) => name != 0 && Resolves(ctx.slots, name, TextureType)
    case DeleteRenderbuffer(name) => name != 0 && Resolves(ctx.slots, name, RenderbufferType)
  }

  /** The framebuffer in slot `k` holds what the history says. */
  ghost predicate Tracked(ctx: Context, k: nat, history: seq<Event>)
    reads ctx
  {
    Sizes(ctx) && k < OBJECT_SLOT_COUNT && ctx.framebuffers[k].color == Play(history)
  }

  lemma {:induction false} PlayedStays(history: seq<Event>, e: Event, n: nat, p: nat)
    requires n <= |history|
    ensures Played(history + [e], n, p) == Played(history, n, p)
  {
    if n > 0 {
      PlayedStays(history, e, n - 1, p);
    }
  }

  lemma OneMoreEvent(history: seq<Event>, e: Event, color: seq<Attachment>)
    requires |color| == MAX_COLOR_ATTACHMENTS
    requires forall p :: 0 <= p < MAX_COLOR_ATTACHMENTS ==> color[p] == After(Play(history)[p], e, p)
    ensures Play(history + [e]) == color
  {
    hide After;
    forall p | 0 <= p < MAX_COLOR_ATTACHMENTS
      ensures Play(history + [e])[p] == color[p]
    {
      PlayedStays(history, e, |history|, p);
    }
  }

  /** The effect of an accepted call on the colour points is that of its events. */
  lemma EffectOf(f: FramebufferObject, f': FramebufferObject, c: AttachCall, history: seq<Event>)
    requires f.color == Play(history)
    requires match c
             case BindFramebuffer(_, _) => f' == f
             case FramebufferTexture(_, attachment, textarget, texture, level) =>
               0 <= level && f' == TextureAttached(f, attachment, textarget, texture, level)
             case FramebufferRenderbuffer(_, attachment, _, renderbuffer) => f' == RenderbufferAttached(f, attachment, renderbuffer)
             case DeleteTexture(name) => f' == DetachedAll(f, TextureAttachment, name)
             case DeleteRenderbuffer(name) => f' == DetachedAll(f, RenderbufferAttachment, name)
    ensures f'.color == Play(history + EventsOf(c))
  {
    hide Play, Played;
    if EventsOf(c) == [] {
      assert history + [] == history;
    } else {
      OneMoreEvent(history, EventsOf(c)[0], f'.color);
    }
  }

  lemma AcceptedLevel(ctx: Context, target: nat, attachment: nat, textarget: nat, texture: nat, level: int)
    requires Sizes(ctx) && TextureError(ctx, target, attachment, textarget, texture, level) == NoError
    ensures 0 <= level
  {
    hide RecordMismatch;
  }

  /** One call, with any arguments and in any state of the context, does to the
      colour points of a framebuffer what its events say, or nothing. */
  method Perform(ctx: Context, k: nat, c: AttachCall, ghost history: seq<Event>) returns (ghost longer: seq<Event>)
    requires SessionValid(ctx) && Tracked(ctx, k, history)
    modifies ctx, ctx.process, ctx.backend
    ensures Sizes(ctx) && old(Sizes(ctx)) && longer == history + if old(Applies(ctx, k, c)) then EventsOf(c) else []
    ensures Tracked(ctx, k, longer)
    ensures SessionValid(ctx)
  {
    hide SessionValid, Surplus, Others, Unowned, Play, TextureError, RenderbufferError, TextureAttached, RenderbufferAttached, DetachedAll,
      NoNewCubes, FacesStay, FacesBytes, EventsOf;
    longer := history + if Applies(ctx, k, c) then EventsOf(c) else [];
    ghost var applies, f := Applies(ctx, k, c), ctx.framebuffers[k];
    assert history + [] == history;
    match c {
      case BindFramebuffer(target, name) =>
        BindFramebufferTo(ctx, target, name);
      case FramebufferTexture(target, attachment, textarget, texture, level) =>
        if applies {
          AcceptedLevel(ctx, target, attachment, textarget, texture, level);
        }
        AttachTexture(ctx, target, attachment, textarget, texture, level);
      case FramebufferRenderbuffer(target, attachment, renderbufferTarget, renderbuffer) =>
        AttachRenderbuffer(ctx, target, attachment, renderbufferTarget, renderbuffer);
      case DeleteTexture(name) =>
        ghost var lost := DropTexture(ctx, name);
      case DeleteRenderbuffer(name) =>
        DeleteRenderbufferNamed(ctx, name);
    }
    FramebufferShapes(ctx);
    if applies {
      EffectOf(f, ctx.framebuffers[k], c, history);
    }
  }

  /** The events of the calls that took effect. */
  ghost function Events(calls: seq<AttachCall>, effective: seq<bool>): seq<Event>
    requires |calls| == |effective|
  {
    if calls == [] then []
    else
      var last := |calls| - 1;
      Events(calls[..last], effective[..last]) + if effective[last] then EventsOf(calls[last]) else []
  }

  lemma OneMoreEffect(calls: seq<AttachCall>, effective: seq<bool>, next: nat, applies: bool)
    requires |effective| == next < |calls|
    ensures Events(calls[..next + 1], effective + [applies])
         == Events(calls[..next], effective) + if applies then EventsOf(calls[next]) else []
  {
    hide EventsOf;
    assert calls[..next + 1][..next] == calls[..next] && (effective + [applies])[..next] == effective;
  }

  ghost predicate TwoShareAnImage(color: seq<Attachment>)
    requires |color| == MAX_COLOR_ATTACHMENTS
  {
    exists p, q :: 0 <= p < q < MAX_COLOR_ATTACHMENTS && SameImage(color[p], color[q])
  }

  /** Two points share an image that is not hidden by leftover layers: they hold a
      texture, or the layers left over at them agree. */
  ghost predicate TwoShareVisibly(history: seq<Event>, color: seq<Attachment>)
    requires |color| == MAX_COLOR_ATTACHMENTS
  {
    exists p, q :: 0 <= p < q < MAX_COLOR_ATTACHMENTS && SharedVisibly(history, color, p, q)
  }

  ghost predicate SharedVisibly(history: seq<Event>, color: seq<Attachment>, p: nat, q: nat)
    requires p < |color| && q < |color|
  {
    SameImage(color[p], color[q]) && (color[p].kind == TextureAttachment || Leftover(history, p) == Leftover(history, q))
  }

  ghost predicate TwoReported(color: seq<Attachment>)
    requires |color| == MAX_COLOR_ATTACHMENTS
  {
    exists p, q :: 0 <= p < q < MAX_COLOR_ATTACHMENTS && ReportedSame(color[p], color[q])
  }

  /** The check's answer over any history, exactly; and when no leftovers disagree it
      is whether two points share an image. */
  lemma AnswerExactly(history: seq<Event>)
    ensures TwoReported(Play(history)) <==> TwoShareVisibly(history, Play(history))
    ensures TwoShareVisibly(history, Play(history)) ==> TwoShareAnImage(Play(history))
    ensures LeftoversAgree(history) ==> (TwoReported(Play(history)) <==> TwoShareAnImage(Play(history)))
  {
    hide Leftover, Played, LeftoversAgree, ReportedSame, SameImage;
    var color := Play(history);
    DuplicatesReportedExactly(history);
    forall p, q | 0 <= p < q < MAX_COLOR_ATTACHMENTS
      ensures ReportedSame(color[p], color[q]) <==> SharedVisibly(history, color, p, q)
    {
      ReportedIsVisible(history, p, q);
    }
  }

  lemma ReportedIsVisible(history: seq<Event>, p: nat, q: nat)
    requires p < q < MAX_COLOR_ATTACHMENTS
    ensures ReportedSame(Play(history)[p], Play(history)[q]) <==> SharedVisibly(history, Play(history), p, q)
  {
    hide Leftover, Played, HoldsRenderbuffer;
    LayerIsLeftover(history, p);
    LayerIsLeftover(history, q);
    RenderbufferHeld(history, p);
    RenderbufferHeld(history, q);
  }

  /** From a fresh framebuffer, any sequence of calls and then the duplicate check:
      the points hold what the calls that took effect say, and the check answers
      whether two points share an image and hold a texture or equal leftover layers;
      while no leftovers disagree, whether two points share an image. */
  method Check(ctx: Context, k: nat, calls: seq<AttachCall>) returns (ghost effective: seq<bool>, found: bool)
    requires SessionValid(ctx) && Sizes(ctx) && k < OBJECT_SLOT_COUNT && ctx.framebuffers[k] == ZERO_FRAMEBUFFER
    modifies ctx, ctx.process, ctx.backend
    ensures |effective| == |calls| && Tracked(ctx, k, Events(calls, effective))
    ensures found <==> TwoShareVisibly(Events(calls, effective), ctx.framebuffers[k].color)
    ensures LeftoversAgree(Events(calls, effective)) ==> (found <==> TwoShareAnImage(ctx.framebuffers[k].color))
    ensures SessionValid(ctx)
  {
    hide SessionValid, EventsOf, LeftoversAgree, ReportedSame, SameImage, Played, Play, Applies, Events, TwoShareAnImage, TwoShareVisibly;
    effective := [];
    ghost var history: seq<Event> := [];
    PlayedNothing();
    var next := 0;
    while next < |calls|
      invariant |effective| == next <= |calls|
      invariant SessionValid(ctx) && Tracked(ctx, k, history) && history == Events(calls[..next], effective)
    {
      ghost var applies := Applies(ctx, k, calls[next]);
      history := Perform(ctx, k, calls[next], history);
      OneMoreEffect(calls, effective, next, applies);
      effective := effective + [applies];
      next := next + 1;
    }
    assert calls[..next] == calls;
    AnswerExactly(history);
    found := HasDuplicate(ctx.framebuffers[k].color);
    assert found <==> TwoReported(Play(history)) by {
      FoundIsReported(ctx.framebuffers[k].color);
    }
  }

  lemma PlayedNothing()
    ensures Play([]) == ZERO_FRAMEBUFFER.color && Events([], []) == []
  {
  }

  lemma FoundIsReported(color: seq<Attachment>)
    requires |color| == MAX_COLOR_ATTACHMENTS
    ensures TwoReported(color) <==> exists i, j :: 0 <= j < i < MAX_COLOR_ATTACHMENTS && ReportedSame(color[j], color[i])
  {
    hide ReportedSame;
  }

  /** What a face and then a renderbuffer at the first point, and the renderbuffer at
      the second, leave of a fresh framebuffer. */
  lemma StaleLayer(cube: nat, renderbuffer: nat)
    requires cube != 0 && renderbuffer != 0
    ensures var f := TextureAttached(ZERO_FRAMEBUFFER, COLOR_ATTACHMENT0, POSITIVE_X + 1, cube, 0);
            var g := RenderbufferAttached(RenderbufferAttached(f, COLOR_ATTACHMENT0, renderbuffer), COLOR_ATTACHMENT0 + 1, renderbuffer);
            && SameImage(g.color[0], g.color[1])
            && forall p, q :: 0 <= p < q < MAX_COLOR_ATTACHMENTS ==> !ReportedSame(g.color[p], g.color[q])
  {
  }

  /** A history the check is wrong about: three accepted calls, no error, and one
      renderbuffer at two colour points goes unreported, because a cube face was
      attached to one of the points before. */
  method StaleLayerHidesDuplicate(ctx: Context, cube: nat, renderbuffer: nat) returns (found: bool)
    requires SessionValid(ctx) && Sizes(ctx) && ctx.pendingError == NoError && ctx.drawBuffersEnabled
    requires Resolves(ctx.slots, ctx.framebufferBinding, FramebufferType)
    requires ctx.framebuffers[Lookup(ctx.slots, ctx.framebufferBinding, FramebufferType)] == ZERO_FRAMEBUFFER
    requires cube != 0 && IsLive(ctx.slots, cube, TextureType) && ctx.textures[Lookup(ctx.slots, cube, TextureType)].target == TEXTURE_CUBE_MAP
    requires renderbuffer != 0 && IsLive(ctx.slots, renderbuffer, RenderbufferType)
    modifies ctx, ctx.process, ctx.backend
    ensures Sizes(ctx) && ctx.pendingError == NoError && !found
    ensures var k := Lookup(ctx.slots, ctx.framebufferBinding, FramebufferType);
            k < OBJECT_SLOT_COUNT && |ctx.framebuffers[k].color| == MAX_COLOR_ATTACHMENTS && TwoShareAnImage(ctx.framebuffers[k].color)
    ensures SessionValid(ctx)
  {
    hide SessionValid, Surplus, Others, Unowned, NoNewCubes, FacesStay, DepthFormatOk, TextureAttached, RenderbufferAttached,
      SameImage, ReportedSame;
    StaleLayer(cube, renderbuffer);
    AttachTexture(ctx, FRAMEBUFFER, COLOR_ATTACHMENT0, POSITIVE_X + 1, cube, 0);
    FramebufferShapes(ctx);
    AttachRenderbuffer(ctx, FRAMEBUFFER, COLOR_ATTACHMENT0, RENDERBUFFER, renderbuffer);
    FramebufferShapes(ctx);
    AttachRenderbuffer(ctx, FRAMEBUFFER, COLOR_ATTACHMENT0 + 1, RENDERBUFFER, renderbuffer);
    FramebufferShapes(ctx);
    var color := ctx.framebuffers[Lookup(ctx.slots, ctx.framebufferBinding, FramebufferType)].color;
    found := HasDuplicate(color);
  }
}
