/** Buffer storage: src/objects/buffer.c. The GPU object, the CPU shadow and the
    ledger's charge are replaced together or not at all. */
module Buffers {
  import opened Limits
  import opened StagingBlocks
  import opened ContextState
  import opened ContextLedger
  import opened ObjectTable
  import opened VertexArrays
  import opened References

  const STREAM_DRAW: nat := 0x88e0
  const STATIC_DRAW: nat := 0x88e4
  const DYNAMIC_DRAW: nat := 0x88e8

  function BufferBytes(buffers: seq<BufferObject>): nat {
    if buffers == [] then 0 else BufferBytes(buffers[..|buffers| - 1]) + |buffers[|buffers| - 1].bytes|
  }

  lemma {:induction false} BufferBytesUpdate(buffers: seq<BufferObject>, k: nat, b: BufferObject)
    requires k < |buffers|
    ensures BufferBytes(buffers[k := b]) == BufferBytes(buffers) - |buffers[k].bytes| + |b.bytes|
    ensures |buffers[k].bytes| <= BufferBytes(buffers)
  {
    var last := |buffers| - 1;
    if k == last {
      assert buffers[k := b][..last] == buffers[..last];
    } else {
      BufferBytesUpdate(buffers[..last], k, b);
      assert buffers[k := b][..last] == buffers[..last][k := b];
    }
  }

  /** The GPU holds, for every buffer, exactly its shadow bytes, and no two
      buffers share a handle. */
  ghost predicate Mirrors(objects: map<nat, seq<byte>>, buffers: seq<BufferObject>) {
    && (forall i :: 0 <= i < |buffers| ==> (buffers[i].handle == 0 <==> buffers[i].bytes == []))
    && (forall i :: 0 <= i < |buffers| && buffers[i].handle != 0 ==>
          buffers[i].handle in objects && objects[buffers[i].handle] == buffers[i].bytes)
    && (forall i, j :: 0 <= i < j < |buffers| && buffers[j].handle != 0 ==> buffers[i].handle != buffers[j].handle)
  }

  ghost predicate BuffersValid(ctx: Context)
    reads ctx`slots, ctx`buffers, ctx.backend
  {
    && TableValid(ctx.slots)
    && |ctx.buffers| == OBJECT_SLOT_COUNT
    && Mirrors(ctx.backend.objects, ctx.buffers)
    && forall i :: 0 <= i < OBJECT_SLOT_COUNT && ctx.slots[i].kind != BufferType ==> ctx.buffers[i] == ZERO_BUFFER
  }

  ghost function Handles(buffers: seq<BufferObject>): set<nat> {
    set i | 0 <= i < |buffers| && buffers[i].handle != 0 :: buffers[i].handle
  }

  /** Backend objects that no buffer owns. */
  ghost function Foreign(ctx: Context): map<nat, seq<byte>>
    reads ctx`buffers, ctx.backend
  {
    ctx.backend.objects - Handles(ctx.buffers)
  }

  /** Charges of this context that stand for something other than a buffer. */
  ghost function OtherCharges(ctx: Context): int
    reads ctx`active, ctx`blocks, ctx`buffers
  {
    Untracked(ctx) - BufferBytes(ctx.buffers)
  }

  ghost predicate Owned(ctx: Context)
    reads ctx`active, ctx`cached, ctx`blocks, ctx`buffers, ctx.process
  {
    LedgerValid(ctx) && 0 <= OtherCharges(ctx)
  }

  // ---------------------------------------------------------- replacements

  /** A source: the NULL pointer with a declared size, or bytes. */
  datatype Source = Null(declared: nat) | Bytes(bytes: seq<byte>)

  /** What a define call stores. */
  function Defined(source: Source, size: nat): (r: seq<byte>)
    requires source.Bytes? ==> size <= |source.bytes|
    ensures |r| == size
  {
    match source
    case Null(_) => seq(size, _ => 0)
    case Bytes(bytes) => bytes[..size]
  }

  /** Reserve, allocate, create and upload. On success the new object holds the
      bytes and they are charged; on failure nothing of the attempt is left. */
  method MakeReplacement(ctx: Context, bytes: seq<byte>) returns (handle: nat)
    requires LedgerValid(ctx) && bytes != []
    modifies ctx`active, ctx`cached, ctx`blocks, ctx.process, ctx.backend
    ensures LedgerValid(ctx) && Others(ctx) == old(Others(ctx))
    ensures Untracked(ctx) == old(Untracked(ctx)) + if handle != 0 then |bytes| else 0
    ensures handle == 0 ==> ctx.backend.objects == old(ctx.backend.objects)
    ensures handle != 0 ==> handle !in old(ctx.backend.objects)
    ensures handle != 0 ==> ctx.backend.objects == old(ctx.backend.objects)[handle := bytes]
    ensures !FitsWithoutCache(old(ctx.active), old(ctx.cached), old(ctx.process.globalBytes), |bytes|) ==> handle == 0
  {
    var memory := AllocTemporary(ctx, |bytes|);
    if memory == 0 {
      return 0;
    }
    var result, made := ctx.backend.CreateObject(|bytes|);
    if result != 0 || made == 0 {
      if made != 0 {
        ctx.backend.DestroyObject(made);
        assert ctx.backend.objects == old(ctx.backend.objects);
      }
      ReleaseShadowBytes(ctx, |bytes|);
      return 0;
    }
    result := ctx.backend.UploadObject(made, bytes);
    if result != 0 {
      ctx.backend.DestroyObject(made);
      assert ctx.backend.objects == old(ctx.backend.objects);
      ReleaseShadowBytes(ctx, |bytes|);
      return 0;
    }
    assert ctx.backend.objects == old(ctx.backend.objects)[made := bytes];
    handle := made;
  }

  lemma ReplacingMirrors(objects: map<nat, seq<byte>>, buffers: seq<BufferObject>, k: nat, b: BufferObject)
    requires k < |buffers| && Mirrors(objects, buffers)
    requires b.handle == 0 <==> b.bytes == []
    requires b.handle != 0 ==> b.handle !in objects
    ensures var with := if b.handle == 0 then objects else objects[b.handle := b.bytes];
            && Mirrors(Without(with, buffers[k].handle), buffers[k := b])
            && Without(with, buffers[k].handle) - Handles(buffers[k := b]) == objects - Handles(buffers)
  {
    var with := if b.handle == 0 then objects else objects[b.handle := b.bytes];
    forall h
      ensures h in Handles(buffers[k := b]) <==> h != 0 && (h == b.handle || (h in Handles(buffers) && h != buffers[k].handle))
    {
      if h in Handles(buffers) && h != buffers[k].handle {
        var i :| 0 <= i < |buffers| && buffers[i].handle == h;
        assert buffers[k := b][i].handle == h;
      }
      if h != 0 && h == b.handle {
        assert buffers[k := b][k].handle == h;
      }
    }
    assert 0 !in Handles(buffers);
    assert buffers[k].handle != 0 ==> buffers[k].handle in Handles(buffers);
    assert forall h :: h in Handles(buffers) ==> h in objects;
    ReplacementMirrored(objects, buffers, k, b);
  }

  lemma ReplacementMirrored(objects: map<nat, seq<byte>>, buffers: seq<BufferObject>, k: nat, b: BufferObject)
    requires k < |buffers| && Mirrors(objects, buffers)
    requires b.handle == 0 <==> b.bytes == []
    requires b.handle != 0 ==> b.handle !in objects
    ensures var with := if b.handle == 0 then objects else objects[b.handle := b.bytes];
            Mirrors(Without(with, buffers[k].handle), buffers[k := b])
  {
    var with := if b.handle == 0 then objects else objects[b.handle := b.bytes];
    var after := buffers[k := b];
    forall i | 0 <= i < |after| && after[i].handle != 0
      ensures after[i].handle in Without(with, buffers[k].handle)
      ensures Without(with, buffers[k].handle)[after[i].handle] == after[i].bytes
    {
      if i != k {
        assert buffers[i].handle in objects;
      }
    }
  }

  /** The old object goes only after the new one is complete. */
  method InstallReplacement(ctx: Context, k: nat, b: BufferObject, ghost before: map<nat, seq<byte>>)
    requires k < OBJECT_SLOT_COUNT == |ctx.buffers| && TableValid(ctx.slots) && ctx.slots[k].kind == BufferType
    requires Mirrors(before, ctx.buffers)
    requires forall i :: 0 <= i < OBJECT_SLOT_COUNT && ctx.slots[i].kind != BufferType ==> ctx.buffers[i] == ZERO_BUFFER
    requires (b.handle == 0 <==> b.bytes == []) && (b.handle != 0 ==> b.handle !in before)
    requires ctx.backend.objects == if b.handle == 0 then before else before[b.handle := b.bytes]
    requires LedgerValid(ctx) && |b.bytes| <= OtherCharges(ctx)
    modifies ctx`active, ctx`buffers, ctx.process`globalBytes, ctx.backend
    ensures BuffersValid(ctx) && LedgerValid(ctx) && Others(ctx) == old(Others(ctx))
    ensures ctx.buffers == old(ctx.buffers)[k := b]
    ensures OtherCharges(ctx) == old(OtherCharges(ctx)) - |b.bytes|
    ensures Foreign(ctx) == before - Handles(old(ctx.buffers))
  {
    var previous := ctx.buffers[k];
    BufferBytesUpdate(ctx.buffers, k, b);
    ReplacingMirrors(before, ctx.buffers, k, b);
    ctx.backend.DestroyObject(previous.handle);
    ReleaseShadowBytes(ctx, |previous.bytes|);
    ctx.buffers := ctx.buffers[k := b];
  }

  // ------------------------------------------------------------------- calls

  function BindingFor(ctx: Context, target: nat): nat
    reads ctx`arrayBuffer, ctx`elementArrayBuffer
  {
    if target == ARRAY_BUFFER then ctx.arrayBuffer else ctx.elementArrayBuffer
  }

  /** The slot of the buffer bound to a target, or 1024. */
  function BoundIndex(ctx: Context, target: nat): nat
    requires |ctx.slots| == OBJECT_SLOT_COUNT
    reads ctx`slots, ctx`arrayBuffer, ctx`elementArrayBuffer
  {
    Lookup(ctx.slots, BindingFor(ctx, target), BufferType)
  }

  predicate TargetOk(target: nat) { target == ARRAY_BUFFER || target == ELEMENT_ARRAY_BUFFER }

  predicate SizeMismatch(source: Source, size: int) {
    match source
    case Null(declared) => declared != 0
    case Bytes(bytes) => size > |bytes|
  }

  /** The error ringl_buffer_data_impl finds before it allocates anything. */
  function DataError(ctx: Context, target: nat, size: int, source: Source, known: bool, usage: nat): Error
    requires |ctx.slots| == OBJECT_SLOT_COUNT
    reads ctx`slots, ctx`arrayBuffer, ctx`elementArrayBuffer
  {
    if !TargetOk(target) then InvalidEnum
    else if usage != STREAM_DRAW && usage != STATIC_DRAW && usage != DYNAMIC_DRAW then InvalidEnum
    else if size < 0 then InvalidValue
    else if known && SizeMismatch(source, size) then InvalidValue
    else if BoundIndex(ctx, target) == OBJECT_SLOT_COUNT then InvalidOperation
    else NoError
  }

  /** What every buffer call keeps: the GPU mirrors the shadows, every other
      charge and every other backend object is untouched. */
  twostate predicate BufferFrame(ctx: Context)
    reads ctx, ctx.process, ctx.backend
  {
    && BuffersValid(ctx) && Owned(ctx)
    && Others(ctx) == old(Others(ctx))
    && OtherCharges(ctx) == old(OtherCharges(ctx))
    && Foreign(ctx) == old(Foreign(ctx))
  }

  /** glBufferData. A rejected or failed call changes no buffer and no backend
      object; a successful one replaces the bound buffer's bytes. */
  method BufferData(ctx: Context, target: nat, size: int, source: Source, known: bool, usage: nat)
    requires BuffersValid(ctx) && Owned(ctx)
    requires !known && source.Bytes? ==> size <= |source.bytes|
    modifies ctx`active, ctx`cached, ctx`blocks, ctx`buffers, ctx`pendingError, ctx.process, ctx.backend
    ensures BufferFrame(ctx)
    ensures var error := DataError(ctx, target, size, source, known, usage);
            || (&& error == NoError && ctx.pendingError == old(ctx.pendingError)
                && var k := BoundIndex(ctx, target);
                   && ctx.buffers[k].bytes == Defined(source, size) && ctx.buffers[k].usage == usage
                   && ctx.buffers == old(ctx.buffers)[k := ctx.buffers[k]])
            || (&& ctx.pendingError == Context.Pending(old(ctx.pendingError), if error == NoError then OutOfMemory else error)
                && (error == NoError ==> size > 0)
                && ctx.buffers == old(ctx.buffers) && ctx.backend.objects == old(ctx.backend.objects))
  {
    hide BufferBytes, Mirrors, Handles, WellFormed, Distinct;
    var error := DataError(ctx, target, size, source, known, usage);
    if error != NoError {
      ctx.RecordError(error);
      return;
    }
    var k := BoundIndex(ctx, target);
    var bytes := Defined(source, size);
    ghost var before := ctx.backend.objects;
    var handle := 0;
    if size > 0 {
      handle := MakeReplacement(ctx, bytes);
      if handle == 0 {
        ctx.RecordError(OutOfMemory);
        return;
      }
    }
    InstallReplacement(ctx, k, BufferObject(handle, bytes, usage), before);
  }

  function Spliced(bytes: seq<byte>, offset: nat, data: seq<byte>): (r: seq<byte>)
    requires offset + |data| <= |bytes|
    ensures |r| == |bytes|
    ensures forall i :: 0 <= i < |bytes| ==> r[i] == if offset <= i < offset + |data| then data[i - offset] else bytes[i]
  {
    bytes[..offset] + data + bytes[offset + |data|..]
  }

  function SubDataError(ctx: Context, target: nat, offset: int, size: int, source: Source, known: bool): Error
    requires |ctx.slots| == |ctx.buffers| == OBJECT_SLOT_COUNT
    reads ctx`slots, ctx`arrayBuffer, ctx`elementArrayBuffer, ctx`buffers
  {
    if !TargetOk(target) then InvalidEnum
    else if offset < 0 || size < 0 then InvalidValue
    else if size > 0 && source.Null? then InvalidValue
    else if known && SizeMismatch(source, size) then InvalidValue
    else if BoundIndex(ctx, target) == OBJECT_SLOT_COUNT then InvalidOperation
    else
      var length := |ctx.buffers[BoundIndex(ctx, target)].bytes|;
      if offset > length || size > length - offset then InvalidValue else NoError
  }

  /** glBufferSubData: exactly a splice, or nothing at all. */
  method BufferSubData(ctx: Context, target: nat, offset: int, size: int, source: Source, known: bool)
    requires BuffersValid(ctx) && Owned(ctx)
    requires !known && source.Bytes? ==> size <= |source.bytes|
    modifies ctx`active, ctx`cached, ctx`blocks, ctx`buffers, ctx`pendingError, ctx.process, ctx.backend
    ensures BufferFrame(ctx)
    ensures var error := old(SubDataError(ctx, target, offset, size, source, known));
            || (&& error == NoError && ctx.pendingError == old(ctx.pendingError)
                && var k := BoundIndex(ctx, target);
                   && (size > 0 ==> ctx.buffers[k].bytes == Spliced(old(ctx.buffers)[k].bytes, offset, source.bytes[..size]))
                   && ctx.buffers[k].usage == old(ctx.buffers)[k].usage
                   && ctx.buffers == old(ctx.buffers)[k := ctx.buffers[k]]
                   && (size == 0 ==> ctx.buffers == old(ctx.buffers)))
            || (&& ctx.pendingError == Context.Pending(old(ctx.pendingError), if error == NoError then OutOfMemory else error)
                && (error == NoError ==> size > 0)
                && ctx.buffers == old(ctx.buffers) && ctx.backend.objects == old(ctx.backend.objects))
  {
    hide BufferBytes, Handles, WellFormed, Distinct;
    var error := SubDataError(ctx, target, offset, size, source, known);
    if error != NoError {
      ctx.RecordError(error);
      return;
    }
    if size == 0 {
      return;
    }
    var k := BoundIndex(ctx, target);
    var current := ctx.buffers[k];
    if current.handle == 0 || current.bytes == [] {
      assert false; // a buffer with bytes has a backend object
    }
    var bytes := Spliced(current.bytes, offset, source.bytes[..size]);
    ghost var before := ctx.backend.objects;
    var handle := MakeReplacement(ctx, bytes);
    if handle == 0 {
      ctx.RecordError(OutOfMemory);
      return;
    }
    InstallReplacement(ctx, k, BufferObject(handle, bytes, current.usage), before);
  }

  // ----------------------------------------------------------------- delete

  /** The storage half of a deletion. */
  method DropStorage(ctx: Context, k: nat)
    requires BuffersValid(ctx) && Owned(ctx) && k < OBJECT_SLOT_COUNT && ctx.slots[k].kind == BufferType
    modifies ctx`active, ctx`buffers, ctx.process`globalBytes, ctx.backend
    ensures BufferFrame(ctx)
    ensures ctx.buffers == old(ctx.buffers)[k := ZERO_BUFFER]
  {
    InstallReplacement(ctx, k, ZERO_BUFFER, ctx.backend.objects);
  }

  /** glDeleteBuffers, one name: no reference is left, the storage is returned
      to the ledger and the backend, and the name stops resolving. */
  method DeleteBuffer(ctx: Context, name: nat)
    requires RefsValid(ctx) && BuffersValid(ctx) && Owned(ctx)
    modifies ctx`active, ctx`buffers, ctx`arrayBuffer, ctx`elementArrayBuffer, ctx`attribs, ctx`vertexArrays,
             ctx`defaultVertexArray, ctx`slots, ctx.process`globalBytes, ctx.backend
    ensures RefsValid(ctx) && BufferFrame(ctx)
    ensures var k := Lookup(old(ctx.slots), name, BufferType);
            if name == 0 || k == OBJECT_SLOT_COUNT then
              ctx.buffers == old(ctx.buffers) && ctx.slots == old(ctx.slots) && View(ctx) == old(View(ctx))
            else
              && ctx.buffers == old(ctx.buffers)[k := ZERO_BUFFER] && ctx.slots == Released(old(ctx.slots), k)
              && View(ctx) == map n | n in old(View(ctx)) :: ScrubArray(old(View(ctx))[n], name)
    ensures CurrentsOf(ctx.attribs) == old(CurrentsOf(ctx.attribs))
    ensures old(Resolves(ctx.slots, name, BufferType)) ==> forall k :: !Resolves(ctx.slots, name, k)
    ensures forall n, k :: n != name ==> Lookup(ctx.slots, n, k) == Lookup(old(ctx.slots), n, k)
  {
    hide AllHeld, ViewOf, ScrubArray, Mirrors, LedgerValid, Handles, BufferBytes, Others;
    NamesRoundTrip(0, 0, 0);
    if name == 0 || !Resolves(ctx.slots, name, BufferType) {
      return;
    }
    UnbindBuffer(ctx, name);
    var k := Lookup(ctx.slots, name, BufferType);
    DropStorage(ctx, k);
    ghost var view := View(ctx);
    ReleaseBufferName(ctx, name);
  }

  method ReleaseBufferName(ctx: Context, name: nat)
    requires ArraysValid(ctx) && AllHeld(ctx.slots, RefsOf(ctx), name) && Resolves(ctx.slots, name, BufferType)
    modifies ctx`slots
    ensures RefsValid(ctx) && View(ctx) == old(View(ctx))
    ensures ctx.slots == Released(old(ctx.slots), Lookup(old(ctx.slots), name, BufferType))
    ensures forall k :: !Resolves(ctx.slots, name, k)
    ensures forall n, k :: n != name ==> Lookup(ctx.slots, n, k) == Lookup(old(ctx.slots), n, k)
  {
    hide AllHeld;
    ReleaseUnreferenced(ctx, name, BufferType);
    NoArrayNamed(old(ctx.slots), ctx.slots, name);
  }

  /** Releasing a buffer's name changes no vertex array's. */
  lemma NoArrayNamed(slots: seq<Slot>, slots': seq<Slot>, name: nat)
    requires TableValid(slots) && TableValid(slots') && Resolves(slots, name, BufferType)
    requires forall k :: !Resolves(slots', name, k)
    requires forall n, k :: n != name ==> Lookup(slots', n, k) == Lookup(slots, n, k)
    ensures ArrayNames(slots') == ArrayNames(slots)
    ensures forall n :: Resolves(slots, n, VertexArrayType) ==> Lookup(slots', n, VertexArrayType) == Lookup(slots, n, VertexArrayType)
  {
    assert !Resolves(slots, name, VertexArrayType);
    assert forall n :: IsArray(slots', n) <==> IsArray(slots, n);
  }

  /** ringl_buffer_objects_destroy_all: a teardown returns every buffer's bytes
      and destroys every buffer's backend object. */
  method DestroyAll(ctx: Context)
    requires BuffersValid(ctx) && Owned(ctx)
    modifies ctx`active, ctx`buffers, ctx.process`globalBytes, ctx.backend
    ensures BufferFrame(ctx)
    ensures BufferBytes(ctx.buffers) == 0 && Handles(ctx.buffers) == {}
    ensures Untracked(ctx) == old(OtherCharges(ctx)) && ctx.backend.objects == old(Foreign(ctx))
  {
    var index := 0;
    while index < OBJECT_SLOT_COUNT
      invariant index <= OBJECT_SLOT_COUNT
      invariant BuffersValid(ctx) && Owned(ctx)
      invariant Others(ctx) == old(Others(ctx)) && OtherCharges(ctx) == old(OtherCharges(ctx))
      invariant Foreign(ctx) == old(Foreign(ctx))
      invariant forall i :: 0 <= i < index ==> ctx.buffers[i].handle == 0
    {
      if ctx.slots[index].kind == BufferType && ctx.slots[index].state != Free {
        InstallReplacement(ctx, index, BufferObject(0, [], ctx.buffers[index].usage), ctx.backend.objects);
      }
      index := index + 1;
    }
    NothingLeft(ctx.buffers);
  }

  lemma {:induction false} NothingLeft(buffers: seq<BufferObject>)
    requires forall i :: 0 <= i < |buffers| ==> buffers[i].handle == 0 && buffers[i].bytes == []
    ensures BufferBytes(buffers) == 0
  {
    if buffers != [] {
      NothingLeft(buffers[..|buffers| - 1]);
    }
  }
}
