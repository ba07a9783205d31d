/** Vertex arrays: src/objects/vertex_array.c and the descriptor setters of
    src/context/vertex_attrib.c. The bound array lives in the context's working
    fields, the others in saved records; together they must behave as one plain
    map from vertex array name to record. */
module VertexArrays {
  import opened Limits
  import opened ContextState
  import opened ObjectTable

  ghost predicate ArraysValid(ctx: Context)
    reads ctx`slots, ctx`vertexArrays, ctx`defaultVertexArray, ctx`attribs, ctx`vertexArrayBinding
  {
    && TableValid(ctx.slots)
    && |ctx.vertexArrays| == OBJECT_SLOT_COUNT
    && RecordsSized(ctx.vertexArrays)
    && |ctx.defaultVertexArray.descriptors| == MAX_VERTEX_ATTRIBS
    && |ctx.attribs| == MAX_VERTEX_ATTRIBS
    && IsArray(ctx.slots, ctx.vertexArrayBinding)
  }

  /** Zero is the default vertex array. */
  predicate IsArray(slots: seq<Slot>, name: nat)
    requires |slots| == OBJECT_SLOT_COUNT
  {
    name == 0 || Resolves(slots, name, VertexArrayType)
  }

  function DescriptorsOf(attribs: seq<VertexAttrib>): (r: seq<Descriptor>)
    ensures |r| == |attribs|
    ensures forall i :: 0 <= i < |attribs| ==> r[i] == attribs[i].descriptor
  {
    seq(|attribs|, i requires 0 <= i < |attribs| => attribs[i].descriptor)
  }

  function CurrentsOf(attribs: seq<VertexAttrib>): (r: seq<Vec4>)
    ensures |r| == |attribs|
    ensures forall i :: 0 <= i < |attribs| ==> r[i] == attribs[i].current
  {
    seq(|attribs|, i requires 0 <= i < |attribs| => attribs[i].current)
  }

  /** The record in the context's working fields. */
  function Working(ctx: Context): VertexArrayState
    reads ctx`elementArrayBuffer, ctx`attribs
  {
    VertexArrayState(ctx.elementArrayBuffer, DescriptorsOf(ctx.attribs))
  }

  /** The saved record of an array, stale while the array is bound. */
  function SavedIn(slots: seq<Slot>, records: seq<VertexArrayState>, default_: VertexArrayState, name: nat): VertexArrayState
    requires |slots| == OBJECT_SLOT_COUNT && |records| == OBJECT_SLOT_COUNT && IsArray(slots, name)
  {
    if name == 0 then default_ else records[Lookup(slots, name, VertexArrayType)]
  }

  function Saved(ctx: Context, name: nat): VertexArrayState
    requires |ctx.slots| == OBJECT_SLOT_COUNT && |ctx.vertexArrays| == OBJECT_SLOT_COUNT && IsArray(ctx.slots, name)
    reads ctx`slots, ctx`vertexArrays, ctx`defaultVertexArray
  {
    SavedIn(ctx.slots, ctx.vertexArrays, ctx.defaultVertexArray, name)
  }

  /** Every name of a vertex array, the default one included. */
  ghost function ArrayNames(slots: seq<Slot>): (names: set<nat>)
    requires TableValid(slots)
    ensures forall n :: n in names <==> IsArray(slots, n)
  {
    var named := set i | 0 <= i < OBJECT_SLOT_COUNT && slots[i].kind == VertexArrayType :: Encode(i, slots[i].generation);
    assert forall n :: n in named <==> Resolves(slots, n, VertexArrayType) by {
      forall n
        ensures n in named <==> Resolves(slots, n, VertexArrayType)
      {
        if n in named {
          var i :| 0 <= i < OBJECT_SLOT_COUNT && slots[i].kind == VertexArrayType && n == Encode(i, slots[i].generation);
          NamesRoundTrip(i, slots[i].generation, n);
        }
        NamesRoundTrip(0, 0, n);
      }
    }
    named + {0}
  }

  /** What the vertex arrays mean: one record per name, the bound one's taken
      from the working fields. */
  ghost function ViewOf(slots: seq<Slot>, records: seq<VertexArrayState>, default_: VertexArrayState,
                        bound: nat, working: VertexArrayState): map<nat, VertexArrayState>
    requires TableValid(slots) && |records| == OBJECT_SLOT_COUNT
  {
    map n | n in ArrayNames(slots) :: if n == bound then working else SavedIn(slots, records, default_, n)
  }

  ghost function View(ctx: Context): map<nat, VertexArrayState>
    requires ArraysValid(ctx)
    reads ctx`slots, ctx`vertexArrays, ctx`defaultVertexArray, ctx`vertexArrayBinding, ctx`elementArrayBuffer, ctx`attribs
  {
    ViewOf(ctx.slots, ctx.vertexArrays, ctx.defaultVertexArray, ctx.vertexArrayBinding, Working(ctx))
  }

  /** Two names of one type never share a slot. */
  lemma SlotsAreNotShared(slots: seq<Slot>, a: nat, b: nat, kind: ObjectType)
    requires TableValid(slots) && Resolves(slots, a, kind) && Lookup(slots, a, kind) == Lookup(slots, b, kind)
    ensures a == b
  {
    NamesRoundTrip(0, 0, a);
    NamesRoundTrip(0, 0, b);
  }

  // ------------------------------------------------------- save and restore

  method CopyDescriptors(from: seq<Descriptor>, to: seq<VertexAttrib>) returns (r: seq<VertexAttrib>)
    requires |from| == |to| == MAX_VERTEX_ATTRIBS
    ensures |r| == MAX_VERTEX_ATTRIBS && DescriptorsOf(r) == from && CurrentsOf(r) == CurrentsOf(to)
  {
    r := to;
    var index := 0;
    while index < MAX_VERTEX_ATTRIBS
      invariant index <= MAX_VERTEX_ATTRIBS && |r| == MAX_VERTEX_ATTRIBS
      invariant forall i :: 0 <= i < index ==> r[i] == VertexAttrib(from[i], to[i].current)
      invariant forall i :: index <= i < MAX_VERTEX_ATTRIBS ==> r[i] == to[i]
    {
      r := r[index := r[index].(descriptor := from[index])];
      index := index + 1;
    }
  }

  method Save(ctx: Context, name: nat)
    requires ArraysValid(ctx) && IsArray(ctx.slots, name)
    modifies ctx`vertexArrays, ctx`defaultVertexArray
    ensures ArraysValid(ctx)
    ensures Saved(ctx, name) == Working(ctx)
    ensures forall n :: IsArray(ctx.slots, n) && n != name ==> Saved(ctx, n) == old(Saved(ctx, n))
    ensures name == 0 ==> ctx.vertexArrays == old(ctx.vertexArrays)
    ensures name != 0 ==> ctx.defaultVertexArray == old(ctx.defaultVertexArray)
    ensures name != 0 ==> ctx.vertexArrays == old(ctx.vertexArrays)[Lookup(ctx.slots, name, VertexArrayType) := Working(ctx)]
  {
    var descriptors: seq<Descriptor> := [];
    var index := 0;
    while index < MAX_VERTEX_ATTRIBS
      invariant index <= MAX_VERTEX_ATTRIBS
      invariant descriptors == DescriptorsOf(ctx.attribs)[..index]
    {
      descriptors := descriptors + [ctx.attribs[index].descriptor];
      index := index + 1;
    }
    var state := VertexArrayState(ctx.elementArrayBuffer, descriptors);
    if name == 0 {
      ctx.defaultVertexArray := state;
    } else {
      var k := Lookup(ctx.slots, name, VertexArrayType);
      ctx.vertexArrays := ctx.vertexArrays[k := state];
      forall n | Resolves(ctx.slots, n, VertexArrayType) && n != name
        ensures Lookup(ctx.slots, n, VertexArrayType) != k
      {
        if Lookup(ctx.slots, n, VertexArrayType) == k {
          SlotsAreNotShared(ctx.slots, name, n, VertexArrayType);
        }
      }
    }
  }

  method Restore(ctx: Context, name: nat)
    requires ArraysValid(ctx) && IsArray(ctx.slots, name)
    modifies ctx`elementArrayBuffer, ctx`attribs
    ensures ArraysValid(ctx)
    ensures Working(ctx) == Saved(ctx, name) && CurrentsOf(ctx.attribs) == old(CurrentsOf(ctx.attribs))
  {
    var state := Saved(ctx, name);
    ctx.elementArrayBuffer := state.elementArrayBuffer;
    ctx.attribs := CopyDescriptors(state.descriptors, ctx.attribs);
  }

  // ------------------------------------------------------------------- bind

  /** Nothing but existing records moved between the working fields, the default
      record and the saved ones; a slot that is no vertex array kept its record. */
  ghost predicate Shuffled(slots: seq<Slot>, working: VertexArrayState, default_: VertexArrayState, records: seq<VertexArrayState>,
                           working': VertexArrayState, default': VertexArrayState, records': seq<VertexArrayState>)
    requires |slots| == |records| == OBJECT_SLOT_COUNT
  {
    && |records'| == OBJECT_SLOT_COUNT
    && (working' == working || working' == default_ || working' in records)
    && (default' == default_ || default' == working)
    && forall i :: 0 <= i < OBJECT_SLOT_COUNT ==>
         records'[i] == records[i] || (slots[i].kind == VertexArrayType && records'[i] == working) || records'[i] == ZERO_ARRAY
  }

  /** Switching the working fields from one array to another keeps the view,
      provided the old array is saved and the new one is loaded. */
  lemma SwitchKeepsView(slots: seq<Slot>, slots': seq<Slot>, records: seq<VertexArrayState>, records': seq<VertexArrayState>,
                        default_: VertexArrayState, default': VertexArrayState, bound: nat, bound': nat,
                        working: VertexArrayState, working': VertexArrayState)
    requires SameNames(slots, slots') && |records| == |records'| == OBJECT_SLOT_COUNT
    requires IsArray(slots, bound) && IsArray(slots, bound')
    requires SavedIn(slots', records', default', bound) == working
    requires forall n :: IsArray(slots', n) && n != bound ==>
               SavedIn(slots', records', default', n) == SavedIn(slots, records, default_, n)
    requires working' == SavedIn(slots', records', default', bound')
    ensures ViewOf(slots', records', default', bound', working') == ViewOf(slots, records, default_, bound, working)
  {
    assert ArrayNames(slots') == ArrayNames(slots);
  }

  /** Binding changes which entry is current and nothing else: no record, no
      current attribute value. */
  method BindVertexArray(ctx: Context, name: nat)
    requires ArraysValid(ctx)
    modifies ctx`slots, ctx`vertexArrays, ctx`defaultVertexArray, ctx`elementArrayBuffer, ctx`attribs,
             ctx`vertexArrayBinding, ctx`pendingError
    ensures ArraysValid(ctx)
    ensures View(ctx) == old(View(ctx))
    ensures CurrentsOf(ctx.attribs) == old(CurrentsOf(ctx.attribs))
    ensures SameNames(old(ctx.slots), ctx.slots)
    ensures forall i :: 0 <= i < OBJECT_SLOT_COUNT ==> ctx.slots[i].kind == old(ctx.slots)[i].kind
    ensures Shuffled(old(ctx.slots), old(Working(ctx)), old(ctx.defaultVertexArray), old(ctx.vertexArrays),
                     Working(ctx), ctx.defaultVertexArray, ctx.vertexArrays)
    ensures if old(IsArray(ctx.slots, name)) then ctx.vertexArrayBinding == name && ctx.pendingError == old(ctx.pendingError)
            else && ctx.vertexArrayBinding == old(ctx.vertexArrayBinding)
                 && ctx.pendingError == Context.Pending(old(ctx.pendingError), InvalidOperation)
  {
    hide ViewOf;
    if name != 0 && !Resolves(ctx.slots, name, VertexArrayType) {
      ctx.RecordError(InvalidOperation);
      return;
    }
    if ctx.vertexArrayBinding == name {
      return;
    }
    Save(ctx, ctx.vertexArrayBinding);
    if name != 0 {
      PromoteName(ctx, name, VertexArrayType);
    }
    Restore(ctx, name);
    ctx.vertexArrayBinding := name;
    SwitchKeepsView(old(ctx.slots), ctx.slots, old(ctx.vertexArrays), ctx.vertexArrays,
                    old(ctx.defaultVertexArray), ctx.defaultVertexArray, old(ctx.vertexArrayBinding), name,
                    old(Working(ctx)), Working(ctx));
  }

  // ---------------------------------------------------------------- setters

  function WithDescriptor(state: VertexArrayState, index: nat, d: Descriptor): VertexArrayState
    requires index < |state.descriptors|
  {
    state.(descriptors := state.descriptors[index := d])
  }

  /** A change of the working fields is a change of the current entry alone. */
  lemma WorkingIsTheCurrentEntry(slots: seq<Slot>, records: seq<VertexArrayState>, default_: VertexArrayState,
                                 bound: nat, working: VertexArrayState, working': VertexArrayState)
    requires TableValid(slots) && |records| == OBJECT_SLOT_COUNT && IsArray(slots, bound)
    ensures ViewOf(slots, records, default_, bound, working')
         == ViewOf(slots, records, default_, bound, working)[bound := working']
    ensures bound in ViewOf(slots, records, default_, bound, working)
    ensures ViewOf(slots, records, default_, bound, working)[bound] == working
  {
  }

  /** Every setter ends in one of these: a new descriptor in the working fields. */
  method SetDescriptor(ctx: Context, index: nat, d: Descriptor)
    requires ArraysValid(ctx) && index < MAX_VERTEX_ATTRIBS
    modifies ctx`attribs
    ensures ArraysValid(ctx)
    ensures View(ctx) == old(View(ctx))[ctx.vertexArrayBinding := WithDescriptor(old(Working(ctx)), index, d)]
    ensures Working(ctx) == WithDescriptor(old(Working(ctx)), index, d)
    ensures CurrentsOf(ctx.attribs) == old(CurrentsOf(ctx.attribs))
  {
    ctx.attribs := ctx.attribs[index := ctx.attribs[index].(descriptor := d)];
    assert DescriptorsOf(ctx.attribs) == old(Working(ctx)).descriptors[index := d];
    WorkingIsTheCurrentEntry(ctx.slots, ctx.vertexArrays, ctx.defaultVertexArray, ctx.vertexArrayBinding,
                             old(Working(ctx)), Working(ctx));
  }

  /** What a setter owes: on an error the first one is recorded and nothing else
      changes; otherwise only the current entry's descriptor does. */
  twostate predicate SetterOutcome(ctx: Context, error: Error, index: nat, d: Descriptor)
    requires old(ArraysValid(ctx)) && ArraysValid(ctx)
    reads ctx
  {
    && CurrentsOf(ctx.attribs) == old(CurrentsOf(ctx.attribs))
    && if error != NoError then
         && View(ctx) == old(View(ctx)) && Working(ctx) == old(Working(ctx))
         && ctx.pendingError == Context.Pending(old(ctx.pendingError), error)
       else
         && index < MAX_VERTEX_ATTRIBS && ctx.pendingError == old(ctx.pendingError)
         && Working(ctx) == WithDescriptor(old(Working(ctx)), index, d)
         && View(ctx) == old(View(ctx))[ctx.vertexArrayBinding := Working(ctx)]
  }

  method SetEnabled(ctx: Context, index: nat, enabled: bool)
    requires ArraysValid(ctx)
    modifies ctx`attribs, ctx`pendingError
    ensures ArraysValid(ctx)
    ensures var error := if index < MAX_VERTEX_ATTRIBS then NoError else InvalidValue;
            SetterOutcome(ctx, error, index,
              if error == NoError then old(ctx.attribs)[index].descriptor.(enabled := enabled) else ZERO_DESCRIPTOR)
  {
    if index >= MAX_VERTEX_ATTRIBS {
      ctx.RecordError(InvalidValue);
      return;
    }
    SetDescriptor(ctx, index, ctx.attribs[index].descriptor.(enabled := enabled));
  }

  function ComponentBytes(componentType: nat): nat {
    if componentType == BYTE_TYPE || componentType == UNSIGNED_BYTE_TYPE then 1
    else if componentType == SHORT_TYPE || componentType == UNSIGNED_SHORT_TYPE then 2
    else if componentType == FLOAT_TYPE then 4
    else 0
  }

  /** The error ringl_vertex_attrib_pointer records, in the order of its checks. */
  function PointerError(index: nat, size: int, componentType: nat, normalized: nat, stride: int, offset: nat,
                        arrayBuffer: nat): Error
  {
    if index >= MAX_VERTEX_ATTRIBS then InvalidValue
    else if ComponentBytes(componentType) == 0 then InvalidEnum
    else if size < 1 || size > 4 || normalized > 1 || stride < 0 || stride > 2048 then InvalidValue
    else if arrayBuffer == 0 then InvalidOperation
    else if offset % ComponentBytes(componentType) != 0 then InvalidOperation
    else NoError
  }

  method VertexAttribPointer(ctx: Context, index: nat, size: int, componentType: nat, normalized: nat, stride: int, offset: nat)
    requires ArraysValid(ctx)
    modifies ctx`attribs, ctx`pendingError
    ensures ArraysValid(ctx)
    ensures var error := PointerError(index, size, componentType, normalized, stride, offset, ctx.arrayBuffer);
            SetterOutcome(ctx, error, index,
              if error != NoError then ZERO_DESCRIPTOR
              else Descriptor(old(ctx.attribs)[index].descriptor.enabled, size, componentType, normalized == 1, stride,
                              old(ctx.attribs)[index].descriptor.divisor, ctx.arrayBuffer, offset))
  {
    var error := PointerError(index, size, componentType, normalized, stride, offset, ctx.arrayBuffer);
    if error != NoError {
      ctx.RecordError(error);
      return;
    }
    var d := ctx.attribs[index].descriptor.(
      size := size, componentType := componentType, normalized := normalized == 1,
      stride := stride, buffer := ctx.arrayBuffer, offset := offset);
    SetDescriptor(ctx, index, d);
  }

  method VertexAttribDivisor(ctx: Context, index: nat, divisor: nat)
    requires ArraysValid(ctx)
    modifies ctx`attribs, ctx`pendingError
    ensures ArraysValid(ctx)
    ensures var error := if !ctx.instancedArraysEnabled then InvalidOperation
                         else if index >= MAX_VERTEX_ATTRIBS then InvalidValue else NoError;
            SetterOutcome(ctx, error, index,
              if error == NoError then old(ctx.attribs)[index].descriptor.(divisor := divisor) else ZERO_DESCRIPTOR)
  {
    if !ctx.instancedArraysEnabled {
      ctx.RecordError(InvalidOperation);
      return;
    }
    if index >= MAX_VERTEX_ATTRIBS {
      ctx.RecordError(InvalidValue);
      return;
    }
    SetDescriptor(ctx, index, ctx.attribs[index].descriptor.(divisor := divisor));
  }

  /** Current values live outside every vertex array. */
  method SetCurrent(ctx: Context, index: nat, value: Vec4)
    requires ArraysValid(ctx)
    modifies ctx`attribs, ctx`pendingError
    ensures ArraysValid(ctx) && View(ctx) == old(View(ctx)) && Working(ctx) == old(Working(ctx))
    ensures CurrentsOf(ctx.attribs) == if index < MAX_VERTEX_ATTRIBS then old(CurrentsOf(ctx.attribs))[index := value]
                                       else old(CurrentsOf(ctx.attribs))
    ensures ctx.pendingError == if index < MAX_VERTEX_ATTRIBS then old(ctx.pendingError)
                                else Context.Pending(old(ctx.pendingError), InvalidValue)
  {
    if index >= MAX_VERTEX_ATTRIBS {
      ctx.RecordError(InvalidValue);
      return;
    }
    ctx.attribs := ctx.attribs[index := ctx.attribs[index].(current := value)];
    assert DescriptorsOf(ctx.attribs) == old(DescriptorsOf(ctx.attribs));
  }

  // ----------------------------------------------------------- detach buffer

  /** A descriptor once its buffer is deleted. */
  function Scrub(d: Descriptor, buffer: nat): Descriptor {
    if d.buffer == buffer then d.(buffer := 0, offset := 0, stride := 0, enabled := false) else d
  }

  function ScrubArray(state: VertexArrayState, buffer: nat): VertexArrayState {
    VertexArrayState(
      if state.elementArrayBuffer == buffer then 0 else state.elementArrayBuffer,
      seq(|state.descriptors|, i requires 0 <= i < |state.descriptors| => Scrub(state.descriptors[i], buffer)))
  }

  method ScrubSaved(state: VertexArrayState, buffer: nat) returns (r: VertexArrayState)
    requires |state.descriptors| == MAX_VERTEX_ATTRIBS
    ensures r == ScrubArray(state, buffer)
  {
    r := state;
    if r.elementArrayBuffer == buffer {
      r := r.(elementArrayBuffer := 0);
    }
    var attrib := 0;
    while attrib < MAX_VERTEX_ATTRIBS
      invariant attrib <= MAX_VERTEX_ATTRIBS && |r.descriptors| == MAX_VERTEX_ATTRIBS
      invariant r.elementArrayBuffer == ScrubArray(state, buffer).elementArrayBuffer
      invariant forall i :: 0 <= i < attrib ==> r.descriptors[i] == Scrub(state.descriptors[i], buffer)
      invariant forall i :: attrib <= i < MAX_VERTEX_ATTRIBS ==> r.descriptors[i] == state.descriptors[i]
    {
      var d := r.descriptors[attrib];
      if d.buffer == buffer {
        r := r.(descriptors := r.descriptors[attrib := d.(buffer := 0, offset := 0, stride := 0, enabled := false)]);
      }
      attrib := attrib + 1;
    }
    assert r.descriptors == ScrubArray(state, buffer).descriptors;
  }

  method ScrubWorking(ctx: Context, buffer: nat)
    requires |ctx.attribs| == MAX_VERTEX_ATTRIBS
    modifies ctx`elementArrayBuffer, ctx`attribs
    ensures |ctx.attribs| == MAX_VERTEX_ATTRIBS
    ensures Working(ctx) == ScrubArray(old(Working(ctx)), buffer)
    ensures CurrentsOf(ctx.attribs) == old(CurrentsOf(ctx.attribs))
  {
    if ctx.elementArrayBuffer == buffer {
      ctx.elementArrayBuffer := 0;
    }
    var attrib := 0;
    while attrib < MAX_VERTEX_ATTRIBS
      invariant attrib <= MAX_VERTEX_ATTRIBS && |ctx.attribs| == MAX_VERTEX_ATTRIBS
      invariant ctx.elementArrayBuffer == ScrubArray(old(Working(ctx)), buffer).elementArrayBuffer
      invariant forall i :: 0 <= i < attrib ==>
        ctx.attribs[i] == VertexAttrib(Scrub(old(ctx.attribs)[i].descriptor, buffer), old(ctx.attribs)[i].current)
      invariant forall i :: attrib <= i < MAX_VERTEX_ATTRIBS ==> ctx.attribs[i] == old(ctx.attribs)[i]
    {
      var d := ctx.attribs[attrib].descriptor;
      if d.buffer == buffer {
        ctx.attribs := ctx.attribs[attrib := ctx.attribs[attrib].(
          descriptor := d.(buffer := 0, offset := 0, stride := 0, enabled := false))];
      }
      attrib := attrib + 1;
    }
    assert DescriptorsOf(ctx.attribs) == ScrubArray(old(Working(ctx)), buffer).descriptors;
    assert CurrentsOf(ctx.attribs) == old(CurrentsOf(ctx.attribs));
  }

  /** The record of a slot that is, or is not, a vertex array's. */
  function ScrubSlot(slot: Slot, state: VertexArrayState, buffer: nat): VertexArrayState {
    if slot.kind == VertexArrayType && slot.state != Free then ScrubArray(state, buffer) else state
  }

  method ScrubSavedArrays(ctx: Context, buffer: nat)
    requires ArraysValid(ctx)
    modifies ctx`vertexArrays
    ensures ArraysValid(ctx)
    ensures forall i :: 0 <= i < OBJECT_SLOT_COUNT ==>
              ctx.vertexArrays[i] == ScrubSlot(ctx.slots[i], old(ctx.vertexArrays)[i], buffer)
  {
    var index := 0;
    while index < OBJECT_SLOT_COUNT
      invariant index <= OBJECT_SLOT_COUNT && |ctx.vertexArrays| == OBJECT_SLOT_COUNT
      invariant forall i :: 0 <= i < OBJECT_SLOT_COUNT ==> |ctx.vertexArrays[i].descriptors| == MAX_VERTEX_ATTRIBS
      invariant forall i :: 0 <= i < index ==>
        ctx.vertexArrays[i] == ScrubSlot(ctx.slots[i], old(ctx.vertexArrays)[i], buffer)
      invariant forall i :: index <= i < OBJECT_SLOT_COUNT ==> ctx.vertexArrays[i] == old(ctx.vertexArrays)[i]
    {
      if ctx.slots[index].kind == VertexArrayType && ctx.slots[index].state != Free {
        var scrubbed := ScrubSaved(ctx.vertexArrays[index], buffer);
        ctx.vertexArrays := ctx.vertexArrays[index := scrubbed];
      }
      index := index + 1;
    }
  }

  lemma ScrubbingIsPointwise(slots: seq<Slot>, records: seq<VertexArrayState>, records': seq<VertexArrayState>,
                             default_: VertexArrayState, bound: nat, working: VertexArrayState, buffer: nat)
    requires TableValid(slots) && |records| == |records'| == OBJECT_SLOT_COUNT
    requires forall i :: 0 <= i < OBJECT_SLOT_COUNT ==> records'[i] == ScrubSlot(slots[i], records[i], buffer)
    ensures var view := ViewOf(slots, records, default_, bound, working);
            ViewOf(slots, records', ScrubArray(default_, buffer), bound, ScrubArray(working, buffer))
              == map n | n in view :: ScrubArray(view[n], buffer)
  {
  }

  /** Deleting a buffer scrubs it from every vertex array, bound or not. */
  method DetachBuffer(ctx: Context, buffer: nat)
    requires ArraysValid(ctx)
    modifies ctx`vertexArrays, ctx`defaultVertexArray, ctx`elementArrayBuffer, ctx`attribs
    ensures ArraysValid(ctx)
    ensures CurrentsOf(ctx.attribs) == old(CurrentsOf(ctx.attribs))
    ensures View(ctx) == if buffer == 0 then old(View(ctx))
                         else map n | n in old(View(ctx)) :: ScrubArray(old(View(ctx))[n], buffer)
    ensures buffer != 0 ==> Working(ctx) == ScrubArray(old(Working(ctx)), buffer)
    ensures buffer != 0 ==> ctx.defaultVertexArray == ScrubArray(old(ctx.defaultVertexArray), buffer)
    ensures buffer != 0 ==> forall i :: 0 <= i < OBJECT_SLOT_COUNT ==>
              ctx.vertexArrays[i] == ScrubSlot(ctx.slots[i], old(ctx.vertexArrays)[i], buffer)
  {
    hide ViewOf, ScrubSlot;
    if buffer == 0 {
      return;
    }
    ScrubWorking(ctx, buffer);
    ScrubSavedArrays(ctx, buffer);
    ctx.defaultVertexArray := ScrubSaved(ctx.defaultVertexArray, buffer);
    ScrubbingIsPointwise(ctx.slots, old(ctx.vertexArrays), ctx.vertexArrays, old(ctx.defaultVertexArray),
                         ctx.vertexArrayBinding, old(Working(ctx)), buffer);
  }

  // ----------------------------------------------------------------- delete

  lemma DropOne(slots: seq<Slot>, slots': seq<Slot>, records: seq<VertexArrayState>, records': seq<VertexArrayState>,
                default_: VertexArrayState, default': VertexArrayState, bound: nat, bound': nat,
                working: VertexArrayState, working': VertexArrayState, name: nat)
    requires TableValid(slots) && |records| == |records'| == OBJECT_SLOT_COUNT
    requires Resolves(slots, name, VertexArrayType) && IsArray(slots, bound)
    requires slots' == Released(slots, Lookup(slots, name, VertexArrayType))
    requires forall i :: 0 <= i < OBJECT_SLOT_COUNT && i != Lookup(slots, name, VertexArrayType) ==> records'[i] == records[i]
    requires default' == default_
    requires if bound == name then bound' == 0 && working' == default_ else bound' == bound && working' == working
    ensures TableValid(slots') && IsArray(slots', bound')
    ensures name != 0
    ensures ViewOf(slots', records', default', bound', working')
         == ViewOf(slots, records, default_, bound, working) - {name}
  {
    NamesRoundTrip(0, 0, 0);
    forall n
      ensures TableValid(slots')
      ensures IsArray(slots', n) <==> IsArray(slots, n) && n != name
      ensures n != name && Resolves(slots, n, VertexArrayType) ==>
                && Lookup(slots', n, VertexArrayType) == Lookup(slots, n, VertexArrayType)
                && Lookup(slots, n, VertexArrayType) != Lookup(slots, name, VertexArrayType)
    {
      ReleaseNames(slots, name, VertexArrayType, n, VertexArrayType);
      if Lookup(slots, n, VertexArrayType) == Lookup(slots, name, VertexArrayType) {
        SlotsAreNotShared(slots, name, n, VertexArrayType);
      }
    }
    var view' := ViewOf(slots', records', default', bound', working');
    var target := ViewOf(slots, records, default_, bound, working) - {name};
    assert view'.Keys == target.Keys;
    assert forall n :: n in view' ==> view'[n] == target[n];
  }

  method DeleteVertexArray(ctx: Context, name: nat)
    requires ArraysValid(ctx) && Resolves(ctx.slots, name, VertexArrayType)
    modifies ctx`slots, ctx`vertexArrays, ctx`defaultVertexArray, ctx`elementArrayBuffer, ctx`attribs, ctx`vertexArrayBinding
    ensures ArraysValid(ctx)
    ensures View(ctx) == old(View(ctx)) - {name}
    ensures ctx.vertexArrayBinding == if old(ctx.vertexArrayBinding) == name then 0 else old(ctx.vertexArrayBinding)
    ensures CurrentsOf(ctx.attribs) == old(CurrentsOf(ctx.attribs))
    ensures ctx.slots == Released(old(ctx.slots), Lookup(old(ctx.slots), name, VertexArrayType))
    ensures Shuffled(old(ctx.slots), old(Working(ctx)), old(ctx.defaultVertexArray), old(ctx.vertexArrays),
                     Working(ctx), ctx.defaultVertexArray, ctx.vertexArrays)
    ensures ctx.vertexArrays[Lookup(old(ctx.slots), name, VertexArrayType)] == ZERO_ARRAY
  {
    NamesRoundTrip(0, 0, 0);
    var index := Lookup(ctx.slots, name, VertexArrayType);
    if ctx.vertexArrayBinding == name {
      Save(ctx, name);
      Restore(ctx, 0);
      ctx.vertexArrayBinding := 0;
    }
    ctx.vertexArrays := ctx.vertexArrays[index := ZERO_ARRAY];
    DropOne(old(ctx.slots), Released(old(ctx.slots), index), old(ctx.vertexArrays), ctx.vertexArrays,
            old(ctx.defaultVertexArray), ctx.defaultVertexArray, old(ctx.vertexArrayBinding), ctx.vertexArrayBinding,
            old(Working(ctx)), Working(ctx), name);
    Release(ctx, name, VertexArrayType);
  }

  function NonZero(names: seq<nat>): (r: set<nat>)
    ensures forall n :: n in r <==> n in names && n != 0
  {
    set n | n in names && n != 0
  }

  lemma NonZeroAppend(names: seq<nat>, i: nat, view: map<nat, VertexArrayState>)
    requires i < |names|
    ensures view - NonZero(names[..i + 1]) == (view - NonZero(names[..i])) - NonZero([names[i]])
  {
    assert names[..i + 1] == names[..i] + [names[i]];
  }

  method DeleteIfArray(ctx: Context, name: nat)
    requires ArraysValid(ctx)
    modifies ctx`slots, ctx`vertexArrays, ctx`defaultVertexArray, ctx`elementArrayBuffer, ctx`attribs, ctx`vertexArrayBinding
    ensures ArraysValid(ctx)
    ensures View(ctx) == old(View(ctx)) - NonZero([name])
    ensures ctx.vertexArrayBinding == if old(ctx.vertexArrayBinding) == name then 0 else old(ctx.vertexArrayBinding)
    ensures CurrentsOf(ctx.attribs) == old(CurrentsOf(ctx.attribs))
  {
    if name == 0 || !Resolves(ctx.slots, name, VertexArrayType) {
      return;
    }
    NamesRoundTrip(0, 0, 0);
    assert NonZero([name]) == {name};
    DeleteVertexArray(ctx, name);
  }

  /** Deleting removes exactly the named entries; a deleted array that was bound
      leaves the default one bound. Unknown names are ignored. */
  method DeleteVertexArrays(ctx: Context, names: seq<nat>)
    requires ArraysValid(ctx)
    modifies ctx`slots, ctx`vertexArrays, ctx`defaultVertexArray, ctx`elementArrayBuffer, ctx`attribs, ctx`vertexArrayBinding
    ensures ArraysValid(ctx)
    ensures View(ctx) == old(View(ctx)) - NonZero(names)
    ensures ctx.vertexArrayBinding == if old(ctx.vertexArrayBinding) in names then 0 else old(ctx.vertexArrayBinding)
    ensures CurrentsOf(ctx.attribs) == old(CurrentsOf(ctx.attribs))
  {
    var i := 0;
    while i < |names|
      invariant i <= |names| && ArraysValid(ctx)
      invariant View(ctx) == old(View(ctx)) - NonZero(names[..i])
      invariant ctx.vertexArrayBinding == if old(ctx.vertexArrayBinding) in names[..i] then 0 else old(ctx.vertexArrayBinding)
      invariant CurrentsOf(ctx.attribs) == old(CurrentsOf(ctx.attribs))
    {
      NonZeroAppend(names, i, old(View(ctx)));
      DeleteIfArray(ctx, names[i]);
      assert names[..i + 1] == names[..i] + [names[i]];
      i := i + 1;
    }
    assert names[..|names|] == names;
  }

  // --------------------------------------------------------------- generate

  ghost predicate KeepsRecords(slots: seq<Slot>, records: seq<VertexArrayState>, records': seq<VertexArrayState>)
    requires |slots| == |records| == OBJECT_SLOT_COUNT
  {
    && |records'| == OBJECT_SLOT_COUNT
    && forall n :: Resolves(slots, n, VertexArrayType) ==>
         records'[Lookup(slots, n, VertexArrayType)] == records[Lookup(slots, n, VertexArrayType)]
  }

  ghost predicate RecordsSized(records: seq<VertexArrayState>) {
    forall i :: 0 <= i < |records| ==> |records[i].descriptors| == MAX_VERTEX_ATTRIBS
  }

  /** The new names map to default records; every other entry is as before. */
  ghost predicate AddsDefaults(slots: seq<Slot>, slots': seq<Slot>, records: seq<VertexArrayState>,
                               records': seq<VertexArrayState>, names: seq<nat>)
  {
    && Adds(slots, slots', names, VertexArrayType)
    && |records| == |records'| == OBJECT_SLOT_COUNT
    && (forall i :: 0 <= i < |names| ==> records'[Lookup(slots', names[i], VertexArrayType)] == DEFAULT_ARRAY)
    && KeepsRecords(slots, records, records')
  }

  ghost function DefaultEntries(names: seq<nat>): (m: map<nat, VertexArrayState>)
    ensures m.Keys == (set n | n in names) && forall n :: n in m ==> m[n] == DEFAULT_ARRAY
  {
    var state := DEFAULT_ARRAY;
    map n | n in names :: state
  }

  lemma GeneratedView(slots: seq<Slot>, slots': seq<Slot>, records: seq<VertexArrayState>, records': seq<VertexArrayState>,
                      names: seq<nat>, default_: VertexArrayState, bound: nat, working: VertexArrayState)
    requires AddsDefaults(slots, slots', records, records', names) && IsArray(slots, bound)
    ensures IsArray(slots', bound)
    ensures ViewOf(slots', records', default_, bound, working)
         == ViewOf(slots, records, default_, bound, working) + DefaultEntries(names)
  {
    forall n
      ensures IsArray(slots', n) <==> IsArray(slots, n) || n in names
      ensures n in names ==> !IsArray(slots, n)
    {
      if n in names {
        var i :| 0 <= i < |names| && names[i] == n;
        assert !Resolves(slots, names[i], VertexArrayType);
      }
    }
    var view' := ViewOf(slots', records', default_, bound, working);
    var target := ViewOf(slots, records, default_, bound, working) + DefaultEntries(names);
    assert view'.Keys == target.Keys;
    forall n | n in view'
      ensures view'[n] == target[n]
    {
      if n in names {
        var i :| 0 <= i < |names| && names[i] == n;
        assert records'[Lookup(slots', names[i], VertexArrayType)] == DEFAULT_ARRAY;
      }
    }
  }

  lemma RolledBackView(slots: seq<Slot>, slots': seq<Slot>, records: seq<VertexArrayState>, records': seq<VertexArrayState>,
                       default_: VertexArrayState, bound: nat, working: VertexArrayState)
    requires SameNames(slots, slots') && |records| == OBJECT_SLOT_COUNT && KeepsRecords(slots, records, records')
    ensures IsArray(slots, bound) <==> IsArray(slots', bound)
    ensures ViewOf(slots', records', default_, bound, working) == ViewOf(slots, records, default_, bound, working)
  {
  }

  /** ringl_gen_vertex_arrays: every new name maps to a default record, or
      nothing changes but the error. */
  method GenVertexArrays(ctx: Context, count: int, names: array<nat>)
    requires ArraysValid(ctx) && count <= names.Length
    modifies ctx`slots, ctx`vertexArrays, ctx`pendingError, names
    ensures ArraysValid(ctx) && ctx.vertexArrayBinding == old(ctx.vertexArrayBinding)
    ensures count < 0 ==> ctx.slots == old(ctx.slots)
    ensures forall i :: 0 <= i < OBJECT_SLOT_COUNT ==>
              ctx.vertexArrays[i] == old(ctx.vertexArrays)[i] || ctx.vertexArrays[i] == DEFAULT_ARRAY
    ensures count < 0 ==> View(ctx) == old(View(ctx)) && names[..] == old(names[..])
    ensures count < 0 ==> ctx.pendingError == Context.Pending(old(ctx.pendingError), InvalidValue)
    ensures count >= 0 ==>
              ((forall i :: 0 <= i < count ==> names[i] != 0) <==> count <= FreeSlots(old(ctx.slots), OBJECT_SLOT_COUNT))
    ensures count >= 0 ==>
              if forall i :: 0 <= i < count ==> names[i] != 0 then
                && Adds(old(ctx.slots), ctx.slots, names[..count], VertexArrayType)
                && View(ctx) == old(View(ctx)) + DefaultEntries(names[..count])
                && ctx.pendingError == old(ctx.pendingError)
              else
                && (forall i :: 0 <= i < count ==> names[i] == 0)
                && Adds(old(ctx.slots), ctx.slots, [], VertexArrayType) && View(ctx) == old(View(ctx))
                && ctx.pendingError == Context.Pending(old(ctx.pendingError), OutOfMemory)
  {
    if count < 0 {
      ctx.RecordError(InvalidValue);
      return;
    }
    ZeroNames(names, count);
    var ok := GenerateRecords(ctx, count, names);
    if ok {
      GeneratedView(old(ctx.slots), ctx.slots, old(ctx.vertexArrays), ctx.vertexArrays, names[..count],
                    ctx.defaultVertexArray, ctx.vertexArrayBinding, Working(ctx));
    } else {
      RolledBackView(old(ctx.slots), ctx.slots, old(ctx.vertexArrays), ctx.vertexArrays,
                     ctx.defaultVertexArray, ctx.vertexArrayBinding, Working(ctx));
      assert names[0] == 0;
      ctx.RecordError(OutOfMemory);
    }
  }

  /** The allocation loop with its roll back. */
  method GenerateRecords(ctx: Context, count: nat, names: array<nat>) returns (ok: bool)
    requires TableValid(ctx.slots) && |ctx.vertexArrays| == OBJECT_SLOT_COUNT && RecordsSized(ctx.vertexArrays)
    requires count <= names.Length && forall j :: 0 <= j < count ==> names[j] == 0
    modifies ctx`slots, ctx`vertexArrays, names
    ensures |ctx.vertexArrays| == OBJECT_SLOT_COUNT && RecordsSized(ctx.vertexArrays)
    ensures forall i :: 0 <= i < OBJECT_SLOT_COUNT ==>
              ctx.vertexArrays[i] == old(ctx.vertexArrays)[i] || ctx.vertexArrays[i] == DEFAULT_ARRAY
    ensures ok ==> AddsDefaults(old(ctx.slots), ctx.slots, old(ctx.vertexArrays), ctx.vertexArrays, names[..count])
    ensures ok ==> forall j :: 0 <= j < count ==> names[j] != 0
    ensures !ok ==> 0 < count && forall j :: 0 <= j < count ==> names[j] == 0
    ensures !ok ==> FreeSlots(old(ctx.slots), OBJECT_SLOT_COUNT) < count
    ensures !ok ==> Adds(old(ctx.slots), ctx.slots, [], VertexArrayType)
    ensures !ok ==> KeepsRecords(old(ctx.slots), old(ctx.vertexArrays), ctx.vertexArrays)
  {
    var i := 0;
    assert names[..i] == [];
    while i < count
      invariant i <= count && |ctx.vertexArrays| == OBJECT_SLOT_COUNT && RecordsSized(ctx.vertexArrays)
      invariant forall i :: 0 <= i < OBJECT_SLOT_COUNT ==>
        ctx.vertexArrays[i] == old(ctx.vertexArrays)[i] || ctx.vertexArrays[i] == DEFAULT_ARRAY
      invariant AddsDefaults(old(ctx.slots), ctx.slots, old(ctx.vertexArrays), ctx.vertexArrays, names[..i])
      invariant forall j :: 0 <= j < i ==> names[j] != 0
      invariant forall j :: i <= j < count ==> names[j] == 0
    {
      var name := GenVertexArray(ctx, old(ctx.slots), old(ctx.vertexArrays), names[..i]);
      if name == 0 {
        assert names[..i] == names[0..i];
        RollBack(ctx, VertexArrayType, old(ctx.slots), names, i);
        return false;
      }
      names[i] := name;
      assert names[..i + 1] == names[..i] + [name];
      i := i + 1;
    }
    return true;
  }

  method GenVertexArray(ctx: Context, ghost slots: seq<Slot>, ghost records: seq<VertexArrayState>, ghost names: seq<nat>)
    returns (name: nat)
    requires RecordsSized(ctx.vertexArrays) && AddsDefaults(slots, ctx.slots, records, ctx.vertexArrays, names)
    modifies ctx`slots, ctx`vertexArrays
    ensures RecordsSized(ctx.vertexArrays)
    ensures |ctx.vertexArrays| == OBJECT_SLOT_COUNT && forall i :: 0 <= i < OBJECT_SLOT_COUNT ==>
              ctx.vertexArrays[i] == old(ctx.vertexArrays)[i] || ctx.vertexArrays[i] == DEFAULT_ARRAY
    ensures if name != 0 then AddsDefaults(slots, ctx.slots, records, ctx.vertexArrays, names + [name])
            else && ctx.slots == old(ctx.slots) && ctx.vertexArrays == old(ctx.vertexArrays)
                 && FreeSlots(ctx.slots, OBJECT_SLOT_COUNT) == 0
  {
    name := AllocateName(ctx, VertexArrayType, slots, names);
    if name == 0 {
      return;
    }
    assert (names + [name])[|names|] == name;
    var index := Lookup(ctx.slots, name, VertexArrayType);
    var state := ZERO_ARRAY;
    var attrib := 0;
    while attrib < MAX_VERTEX_ATTRIBS
      invariant attrib <= MAX_VERTEX_ATTRIBS && |state.descriptors| == MAX_VERTEX_ATTRIBS
      invariant state.elementArrayBuffer == 0
      invariant forall i :: 0 <= i < attrib ==> state.descriptors[i] == DEFAULT_DESCRIPTOR
      invariant forall i :: attrib <= i < MAX_VERTEX_ATTRIBS ==> state.descriptors[i] == ZERO_DESCRIPTOR
    {
      state := state.(descriptors := state.descriptors[attrib := state.descriptors[attrib].(size := 4, componentType := FLOAT_TYPE)]);
      attrib := attrib + 1;
    }
    assert state == DEFAULT_ARRAY;
    ctx.vertexArrays := ctx.vertexArrays[index := state];
    forall n | n != name && Resolves(ctx.slots, n, VertexArrayType)
      ensures Lookup(ctx.slots, n, VertexArrayType) != index
    {
      if Lookup(ctx.slots, n, VertexArrayType) == index {
        SlotsAreNotShared(ctx.slots, name, n, VertexArrayType);
      }
    }
  }
}
