/** Object names with generations: src/objects/object_table.c. */
module ObjectTable {
  import opened Limits
  import opened Arithmetic
  import opened ContextState

  const GENERATION_LIMIT: nat := 0x1_0000 // generations are 16 bits wide
  const LIVES: nat := GENERATION_LIMIT - 1 // generations 1 to 65535 are in use

  datatype Decoded = Invalid | Decoded(index: nat, generation: nat)

  function Encode(index: nat, generation: nat): nat {
    generation * GENERATION_LIMIT + index + 1
  }

  function Decode(name: nat): (r: Decoded)
    ensures r.Decoded? ==> r.index < OBJECT_SLOT_COUNT && 0 < r.generation
  {
    var encodedIndex, generation := name % GENERATION_LIMIT, name / GENERATION_LIMIT;
    if name == 0 || encodedIndex == 0 || encodedIndex > OBJECT_SLOT_COUNT || generation == 0 then Invalid
    else Decoded(encodedIndex - 1, generation)
  }

  /** Encoding and decoding are inverse, so distinct slots and generations have
      distinct names and zero names nothing. */
  lemma NamesRoundTrip(index: nat, generation: nat, name: nat)
    ensures index < OBJECT_SLOT_COUNT && 0 < generation ==> Decode(Encode(index, generation)) == Decoded(index, generation)
    ensures Decode(name).Decoded? ==> Encode(Decode(name).index, Decode(name).generation) == name
    ensures Decode(0) == Invalid
  {
    if index < OBJECT_SLOT_COUNT {
      assert Encode(index, generation) % GENERATION_LIMIT == index + 1;
      assert Encode(index, generation) / GENERATION_LIMIT == generation;
    }
  }

  // ----------------------------------------------------------- the table

  ghost predicate TableValid(slots: seq<Slot>) {
    && |slots| == OBJECT_SLOT_COUNT
    && forall i :: 0 <= i < |slots| ==>
         && slots[i].generation < GENERATION_LIMIT
         && (slots[i].state == Free <==> slots[i].kind == NoType)
         && (slots[i].state != Free ==> 0 < slots[i].generation)
  }

  /** The slot a name selects, or 1024. */
  function Lookup(slots: seq<Slot>, name: nat, kind: ObjectType): (index: nat)
    requires |slots| == OBJECT_SLOT_COUNT
    ensures index <= OBJECT_SLOT_COUNT
    ensures index < OBJECT_SLOT_COUNT ==> slots[index].state != Free && slots[index].kind == kind
  {
    match Decode(name)
    case Invalid => OBJECT_SLOT_COUNT
    case Decoded(index, generation) =>
      var slot := slots[index];
      if slot.state == Free || slot.generation != generation || slot.kind != kind then OBJECT_SLOT_COUNT else index
  }

  predicate Resolves(slots: seq<Slot>, name: nat, kind: ObjectType)
    requires |slots| == OBJECT_SLOT_COUNT
  {
    Lookup(slots, name, kind) < OBJECT_SLOT_COUNT
  }

  /** The first free slot from k on, or 1024. */
  function FirstFree(slots: seq<Slot>, k: nat): (r: nat)
    requires k <= |slots|
    ensures k <= r <= |slots|
    ensures r < |slots| ==> slots[r].state == Free
    ensures forall j :: k <= j < r ==> slots[j].state != Free
    decreases |slots| - k
  {
    if k == |slots| || slots[k].state == Free then k else FirstFree(slots, k + 1)
  }

  /** How many of the first `n` slots are free. */
  function FreeSlots(slots: seq<Slot>, n: nat): (r: nat)
    requires n <= |slots|
    ensures r <= n
  {
    if n == 0 then 0 else FreeSlots(slots, n - 1) + if slots[n - 1].state == Free then 1 else 0
  }

  lemma {:induction false} FreeSlotsUpdate(slots: seq<Slot>, k: nat, slot: Slot, n: nat)
    requires k < |slots| && n <= |slots|
    ensures FreeSlots(slots[k := slot], n)
         == FreeSlots(slots, n) + if k < n then FreeOne(slot) - FreeOne(slots[k]) else 0
  {
    if n > 0 {
      FreeSlotsUpdate(slots, k, slot, n - 1);
    }
  }

  function FreeOne(slot: Slot): int { if slot.state == Free then 1 else 0 }

  /** The scan fails exactly when no slot is free. */
  lemma {:induction false} ScanFails(slots: seq<Slot>, n: nat)
    requires n <= |slots|
    ensures FreeSlots(slots, n) == 0 <==> forall k :: 0 <= k < n ==> slots[k].state != Free
  {
    if n > 0 {
      ScanFails(slots, n - 1);
    }
  }

  function Allocated(slots: seq<Slot>, index: nat, kind: ObjectType): (r: seq<Slot>)
    requires index < |slots|
  {
    slots[index := Slot(if slots[index].generation == 0 then 1 else slots[index].generation, kind, Reserved)]
  }

  /** 65535 is followed by 1: zero never names a generation. */
  function NextGeneration(generation: nat): nat {
    var next := (generation + 1) % GENERATION_LIMIT;
    if next == 0 then 1 else next
  }

  function Released(slots: seq<Slot>, index: nat): (r: seq<Slot>)
    requires index < |slots|
  {
    slots[index := Slot(NextGeneration(slots[index].generation), NoType, Free)]
  }

  method Allocate(ctx: Context, kind: ObjectType) returns (name: nat)
    requires TableValid(ctx.slots)
    modifies ctx`slots
    ensures TableValid(ctx.slots)
    ensures var k := FirstFree(old(ctx.slots), 0);
            if kind == NoType || k == OBJECT_SLOT_COUNT then name == 0 && ctx.slots == old(ctx.slots)
            else ctx.slots == Allocated(old(ctx.slots), k, kind) && name == Encode(k, ctx.slots[k].generation)
  {
    if kind == NoType {
      return 0;
    }
    var index := 0;
    while index < OBJECT_SLOT_COUNT
      invariant index <= OBJECT_SLOT_COUNT && ctx.slots == old(ctx.slots)
      invariant FirstFree(ctx.slots, index) == FirstFree(ctx.slots, 0)
    {
      var slot := ctx.slots[index];
      if slot.state == Free {
        if slot.generation == 0 {
          slot := slot.(generation := 1);
        }
        ctx.slots := ctx.slots[index := slot.(kind := kind, state := Reserved)];
        return Encode(index, slot.generation);
      }
      index := index + 1;
    }
    return 0;
  }

  method Promote(ctx: Context, index: nat)
    requires TableValid(ctx.slots) && index < OBJECT_SLOT_COUNT
    modifies ctx`slots
    ensures TableValid(ctx.slots)
    ensures ctx.slots == if old(ctx.slots)[index].state == Reserved
                         then old(ctx.slots)[index := old(ctx.slots)[index].(state := Live)] else old(ctx.slots)
  {
    if ctx.slots[index].state == Reserved {
      ctx.slots := ctx.slots[index := ctx.slots[index].(state := Live)];
    }
  }

  method Release(ctx: Context, name: nat, kind: ObjectType)
    requires TableValid(ctx.slots)
    modifies ctx`slots
    ensures TableValid(ctx.slots)
    ensures var k := Lookup(old(ctx.slots), name, kind);
            ctx.slots == if k < OBJECT_SLOT_COUNT then Released(old(ctx.slots), k) else old(ctx.slots)
  {
    var index := Lookup(ctx.slots, name, kind);
    if index == OBJECT_SLOT_COUNT {
      return;
    }
    var generation := (ctx.slots[index].generation + 1) % GENERATION_LIMIT;
    if generation == 0 {
      generation := 1;
    }
    ctx.slots := ctx.slots[index := Slot(generation, NoType, Free)];
  }

  // -------------------------------------------- what the updates do to names

  /** Allocation makes one name resolve and touches no other. */
  lemma AllocationNames(slots: seq<Slot>, index: nat, kind: ObjectType, other: nat, k: ObjectType)
    requires TableValid(slots) && index < OBJECT_SLOT_COUNT && slots[index].state == Free && kind != NoType
    ensures var after := Allocated(slots, index, kind);
            var name := Encode(index, after[index].generation);
            && TableValid(after)
            && Lookup(after, name, kind) == index
            && Lookup(slots, name, k) == OBJECT_SLOT_COUNT
            && (other != name || k != kind ==> Lookup(after, other, k) == Lookup(slots, other, k))
  {
    var after := Allocated(slots, index, kind);
    NamesRoundTrip(index, after[index].generation, other);
  }

  /** Release makes one name stop resolving and touches no other. */
  lemma ReleaseNames(slots: seq<Slot>, name: nat, kind: ObjectType, other: nat, k: ObjectType)
    requires TableValid(slots) && Resolves(slots, name, kind)
    ensures var after := Released(slots, Lookup(slots, name, kind));
            && TableValid(after)
            && Lookup(after, name, k) == OBJECT_SLOT_COUNT
            && (other != name ==> Lookup(after, other, k) == Lookup(slots, other, k))
  {
    NamesRoundTrip(0, 0, name);
    NamesRoundTrip(0, 0, other);
  }

  lemma PromotionNames(slots: seq<Slot>, index: nat, other: nat, k: ObjectType)
    requires TableValid(slots) && index < OBJECT_SLOT_COUNT && slots[index].state == Reserved
    ensures var after := slots[index := slots[index].(state := Live)];
            TableValid(after) && Lookup(after, other, k) == Lookup(slots, other, k)
  {
  }

  /** The two tables resolve every name alike. */
  ghost predicate SameNames(a: seq<Slot>, b: seq<Slot>) {
    && TableValid(a) && TableValid(b)
    && forall n, k :: Lookup(a, n, k) == Lookup(b, n, k)
  }

  method PromoteName(ctx: Context, name: nat, kind: ObjectType)
    requires TableValid(ctx.slots) && Resolves(ctx.slots, name, kind)
    modifies ctx`slots
    ensures SameNames(old(ctx.slots), ctx.slots)
    ensures forall i :: 0 <= i < OBJECT_SLOT_COUNT ==> ctx.slots[i].kind == old(ctx.slots)[i].kind
  {
    var index := Lookup(ctx.slots, name, kind);
    if ctx.slots[index].state == Reserved {
      forall n, k
        ensures var after := ctx.slots[index := ctx.slots[index].(state := Live)];
                Lookup(after, n, k) == Lookup(ctx.slots, n, k)
      {
        PromotionNames(ctx.slots, index, n, k);
      }
    }
    Promote(ctx, index);
  }

  /** The tables agree on every name except that `names` resolve for `kind` in
      the second. */
  ghost predicate Adds(a: seq<Slot>, b: seq<Slot>, names: seq<nat>, kind: ObjectType) {
    && TableValid(a) && TableValid(b)
    && (forall i :: 0 <= i < |names| ==> names[i] != 0 && Resolves(b, names[i], kind))
    && (forall i, k :: 0 <= i < |names| ==> !Resolves(a, names[i], k))
    && (forall i, j :: 0 <= i < j < |names| ==> names[i] != names[j])
    && (forall n, k :: !(k == kind && n in names) ==> Lookup(b, n, k) == Lookup(a, n, k))
    && (forall i :: 0 <= i < OBJECT_SLOT_COUNT && a[i].state != Free ==> b[i] == a[i])
    && FreeSlots(a, OBJECT_SLOT_COUNT) == FreeSlots(b, OBJECT_SLOT_COUNT) + |names|
  }

  method AllocateName(ctx: Context, kind: ObjectType, ghost before: seq<Slot>, ghost names: seq<nat>) returns (name: nat)
    requires Adds(before, ctx.slots, names, kind) && kind != NoType
    modifies ctx`slots
    ensures if name != 0 then Adds(before, ctx.slots, names + [name], kind)
            else ctx.slots == old(ctx.slots) && FreeSlots(ctx.slots, OBJECT_SLOT_COUNT) == 0
  {
    ScanFails(ctx.slots, OBJECT_SLOT_COUNT);
    name := Allocate(ctx, kind);
    var k := FirstFree(old(ctx.slots), 0);
    if k < OBJECT_SLOT_COUNT {
      AddsOne(before, old(ctx.slots), k, names, kind);
    }
  }

  lemma AddsOne(before: seq<Slot>, slots: seq<Slot>, index: nat, names: seq<nat>, kind: ObjectType)
    requires Adds(before, slots, names, kind) && kind != NoType
    requires index < OBJECT_SLOT_COUNT && slots[index].state == Free
    ensures var after := Allocated(slots, index, kind);
            Adds(before, after, names + [Encode(index, after[index].generation)], kind)
  {
    var after := Allocated(slots, index, kind);
    var name := Encode(index, after[index].generation);
    var more := names + [name];
    FreeSlotsUpdate(slots, index, after[index], OBJECT_SLOT_COUNT);
    forall n, j
      ensures Lookup(slots, name, j) == OBJECT_SLOT_COUNT
      ensures Lookup(after, name, kind) == index
      ensures !(n == name && j == kind) ==> Lookup(after, n, j) == Lookup(slots, n, j)
    {
      AllocationNames(slots, index, kind, n, j);
    }
    assert forall i, k :: 0 <= i < |more| ==> !Resolves(before, more[i], k);
    forall n, k | !(k == kind && n in more)
      ensures Lookup(after, n, k) == Lookup(before, n, k)
    {
      assert n in names ==> n in more;
      assert name == more[|names|];
    }
  }

  /** A released name leaves the others alone. */
  method ReleaseName(ctx: Context, kind: ObjectType, ghost before: seq<Slot>, ghost names: seq<nat>, name: nat)
    requires names != [] && name == names[0] && Adds(before, ctx.slots, names, kind) && kind != NoType
    modifies ctx`slots
    ensures Adds(before, ctx.slots, names[1..], kind)
  {
    forall n, k
      ensures var after := Released(ctx.slots, Lookup(ctx.slots, name, kind));
              && TableValid(after)
              && Lookup(after, name, k) == OBJECT_SLOT_COUNT
              && (n != name ==> Lookup(after, n, k) == Lookup(ctx.slots, n, k))
    {
      ReleaseNames(ctx.slots, name, kind, n, k);
    }
    ghost var index := Lookup(ctx.slots, name, kind);
    FreeSlotsUpdate(ctx.slots, index, Released(ctx.slots, index)[index], OBJECT_SLOT_COUNT);
    Release(ctx, name, kind);
    assert forall i :: 0 <= i < |names| - 1 ==> names[1..][i] == names[i + 1];
    assert name !in names[1..];
    forall n, k | !(k == kind && n in names[1..])
      ensures Lookup(ctx.slots, n, k) == Lookup(before, n, k)
    {
      if n == name {
        assert !Resolves(before, names[0], k);
      } else {
        assert n in names ==> n in names[1..];
      }
    }
  }

  method ZeroNames(objects: array<nat>, count: nat)
    requires count <= objects.Length
    modifies objects
    ensures forall i :: 0 <= i < count ==> objects[i] == 0
    ensures objects[count..] == old(objects[count..])
  {
    var index := 0;
    while index < count
      invariant index <= count
      invariant forall i :: 0 <= i < index ==> objects[i] == 0
      invariant objects[count..] == old(objects[count..])
    {
      objects[index] := 0;
      index := index + 1;
    }
  }

  /** generate_objects: all `count` names, or none and an error. It succeeds
      exactly when that many slots are free, and a failure rolls every earlier
      name back. */
  method GenerateObjects(ctx: Context, kind: ObjectType, count: int, objects: array<nat>)
    requires TableValid(ctx.slots) && kind != NoType && count <= objects.Length
    modifies ctx`slots, ctx`pendingError, objects
    ensures TableValid(ctx.slots)
    ensures count < 0 ==> ctx.slots == old(ctx.slots) && objects[..] == old(objects[..])
    ensures count < 0 ==> ctx.pendingError == Context.Pending(old(ctx.pendingError), InvalidValue)
    ensures count >= 0 ==> objects[count..] == old(objects[count..])
    ensures count >= 0 ==>
              ((forall i :: 0 <= i < count ==> objects[i] != 0) <==> count <= FreeSlots(old(ctx.slots), OBJECT_SLOT_COUNT))
    ensures count >= 0 ==>
              if forall i :: 0 <= i < count ==> objects[i] != 0 then
                Adds(old(ctx.slots), ctx.slots, objects[..count], kind) && ctx.pendingError == old(ctx.pendingError)
              else
                && (forall i :: 0 <= i < count ==> objects[i] == 0)
                && Adds(old(ctx.slots), ctx.slots, [], kind)
                && ctx.pendingError == Context.Pending(old(ctx.pendingError), OutOfMemory)
  {
    hide FreeSlots, Adds;
    AddsNothing(ctx.slots, kind);
    if count < 0 {
      ctx.RecordError(InvalidValue);
      return;
    }
    if count == 0 {
      assert objects[..count] == [];
      AddsCount(old(ctx.slots), ctx.slots, [], kind);
      return;
    }
    ZeroNames(objects, count);
    var index := 0;
    assert objects[..index] == [];
    while index < count
      invariant 0 <= index <= count
      invariant Adds(old(ctx.slots), ctx.slots, objects[..index], kind)
      invariant forall i :: 0 <= i < index ==> objects[i] != 0
      invariant forall i :: index <= i < count ==> objects[i] == 0
      invariant objects[count..] == old(objects[count..]) && ctx.pendingError == old(ctx.pendingError)
    {
      var name := AllocateName(ctx, kind, old(ctx.slots), objects[..index]);
      objects[index] := name;
      if name == 0 {
        assert objects[..index] == objects[0..index];
        AddsCount(old(ctx.slots), ctx.slots, objects[..index], kind);
        RollBack(ctx, kind, old(ctx.slots), objects, index);
        assert objects[0] == 0;
        ctx.RecordError(OutOfMemory);
        return;
      }
      assert objects[..index + 1] == objects[..index] + [name];
      index := index + 1;
    }
    AddsCount(old(ctx.slots), ctx.slots, objects[..count], kind);
  }

  lemma AddsNothing(slots: seq<Slot>, kind: ObjectType)
    requires TableValid(slots)
    ensures Adds(slots, slots, [], kind)
  {
  }

  lemma AddsCount(a: seq<Slot>, b: seq<Slot>, names: seq<nat>, kind: ObjectType)
    requires Adds(a, b, names, kind)
    ensures TableValid(a) && TableValid(b) && FreeSlots(a, OBJECT_SLOT_COUNT) == FreeSlots(b, OBJECT_SLOT_COUNT) + |names|
  {
  }

  method RollBack(ctx: Context, kind: ObjectType, ghost before: seq<Slot>, objects: array<nat>, index: nat)
    requires kind != NoType && index <= objects.Length && Adds(before, ctx.slots, objects[0..index], kind)
    modifies ctx`slots, objects
    ensures Adds(before, ctx.slots, [], kind)
    ensures forall i :: 0 <= i < index ==> objects[i] == 0
    ensures forall i :: index <= i < objects.Length ==> objects[i] == old(objects[i])
  {
    var rollback := 0;
    while rollback < index
      invariant rollback <= index
      invariant Adds(before, ctx.slots, objects[rollback..index], kind)
      invariant forall i :: 0 <= i < rollback ==> objects[i] == 0
      invariant forall i :: index <= i < objects.Length ==> objects[i] == old(objects[i])
    {
      ghost var names := objects[rollback..index];
      ReleaseName(ctx, kind, before, names, objects[rollback]);
      objects[rollback] := 0;
      assert objects[rollback + 1..index] == names[1..];
      rollback := rollback + 1;
    }
    assert objects[index..index] == [];
  }

  // ------------------------------------------------------- slot histories

  datatype Op = AllocateOp(kind: ObjectType) | PromoteOp(index: nat) | ReleaseOp(name: nat, kind: ObjectType)

  function Apply(slots: seq<Slot>, op: Op): (r: seq<Slot>)
    requires |slots| == OBJECT_SLOT_COUNT
    ensures |r| == OBJECT_SLOT_COUNT
  {
    match op
    case AllocateOp(kind) =>
      var k := FirstFree(slots, 0);
      if kind == NoType || k == OBJECT_SLOT_COUNT then slots else Allocated(slots, k, kind)
    case PromoteOp(index) =>
      if index < OBJECT_SLOT_COUNT && slots[index].state == Reserved
      then slots[index := slots[index].(state := Live)] else slots
    case ReleaseOp(name, kind) =>
      var k := Lookup(slots, name, kind);
      if k < OBJECT_SLOT_COUNT then Released(slots, k) else slots
  }

  function ApplyAll(slots: seq<Slot>, ops: seq<Op>): (r: seq<Slot>)
    requires |slots| == OBJECT_SLOT_COUNT
    ensures |r| == OBJECT_SLOT_COUNT
  {
    if ops == [] then slots else Apply(ApplyAll(slots, ops[..|ops| - 1]), ops[|ops| - 1])
  }

  /** How often a history releases a slot. */
  function Releases(slots: seq<Slot>, ops: seq<Op>, index: nat): nat
    requires |slots| == OBJECT_SLOT_COUNT
  {
    if ops == [] then 0
    else
      var before := ApplyAll(slots, ops[..|ops| - 1]);
      var op := ops[|ops| - 1];
      Releases(slots, ops[..|ops| - 1], index)
      + if op.ReleaseOp? && Lookup(before, op.name, op.kind) == index then 1 else 0
  }

  /** The generation after k releases of a slot whose generation is g. */
  function GenerationAfter(g: nat, k: nat): (r: nat)
    requires 0 < g
    ensures 0 < r
  {
    (g - 1 + k) % LIVES + 1
  }

  lemma FirstLife(g: nat)
    requires 0 < g < GENERATION_LIMIT
    ensures GenerationAfter(g, 0) == g
  {
    QuotientIs(g - 1, LIVES, 0, g - 1);
  }

  lemma GenerationStep(g: nat, k: nat)
    requires 0 < g
    ensures NextGeneration(GenerationAfter(g, k)) == GenerationAfter(g, k + 1)
  {
    var m := g - 1 + k;
    var q, r := m / LIVES, m % LIVES;
    DivMod(m, LIVES);
    if r + 1 == LIVES {
      Distribute(q, 1, LIVES);
      QuotientIs(m + 1, LIVES, q + 1, 0);
    } else {
      QuotientIs(m + 1, LIVES, q, r + 1);
    }
  }

  lemma Generations(slots: seq<Slot>, index: nat)
    requires TableValid(slots) && index < OBJECT_SLOT_COUNT
    ensures |slots| == OBJECT_SLOT_COUNT && slots[index].generation < GENERATION_LIMIT
  {
  }

  /** One operation moves the generation of a slot exactly if it releases it. */
  lemma OneOp(slots: seq<Slot>, op: Op, index: nat)
    requires TableValid(slots) && index < OBJECT_SLOT_COUNT && 0 < slots[index].generation
    ensures TableValid(Apply(slots, op))
    ensures Apply(slots, op)[index].generation
         == if op.ReleaseOp? && Lookup(slots, op.name, op.kind) == index then NextGeneration(slots[index].generation)
            else slots[index].generation
  {
  }

  lemma {:induction false} GenerationsCount(slots: seq<Slot>, ops: seq<Op>, index: nat)
    requires TableValid(slots) && index < OBJECT_SLOT_COUNT && 0 < slots[index].generation
    ensures TableValid(ApplyAll(slots, ops))
    ensures ApplyAll(slots, ops)[index].generation == GenerationAfter(slots[index].generation, Releases(slots, ops, index))
  {
    hide GenerationAfter, NextGeneration, Apply, TableValid;
    Generations(slots, index);
    var g := slots[index].generation;
    if ops == [] {
      FirstLife(g);
    } else {
      GenerationsCount(slots, ops[..|ops| - 1], index);
      GenerationStep(g, Releases(slots, ops[..|ops| - 1], index));
      OneOp(ApplyAll(slots, ops[..|ops| - 1]), ops[|ops| - 1], index);
    }
  }

  lemma RevisitsAfterLives(g: nat, k: nat)
    requires 0 < g < GENERATION_LIMIT
    ensures GenerationAfter(g, k) == g <==> k % LIVES == 0
  {
    var q, r := k / LIVES, k % LIVES;
    DivMod(k, LIVES);
    if g - 1 + r < LIVES {
      QuotientIs(g - 1 + k, LIVES, q, g - 1 + r);
    } else {
      Distribute(q, 1, LIVES);
      QuotientIs(g - 1 + k, LIVES, q + 1, g - 1 + r - LIVES);
    }
  }

  /** Over any history of allocations, promotions and releases, a name that
      resolved at the start resolves again exactly when its slot is in use for
      that type and has been released a multiple of 65535 times. */
  lemma ReuseExactly(slots: seq<Slot>, ops: seq<Op>, name: nat, kind: ObjectType, k: ObjectType)
    requires TableValid(slots) && Resolves(slots, name, kind)
    ensures var index := Lookup(slots, name, kind);
            var after := ApplyAll(slots, ops);
            Resolves(after, name, k) <==>
              after[index].state != Free && after[index].kind == k && Releases(slots, ops, index) % LIVES == 0
  {
    var index := Lookup(slots, name, kind);
    GenerationsCount(slots, ops, index);
    RevisitsAfterLives(slots[index].generation, Releases(slots, ops, index));
  }

  /** So a released name resolves to nothing until its slot has been released
      65535 times. */
  lemma ReleasedNamesStayDead(slots: seq<Slot>, ops: seq<Op>, name: nat, kind: ObjectType, k: ObjectType)
    requires TableValid(slots) && Resolves(slots, name, kind)
    requires 0 < Releases(slots, ops, Lookup(slots, name, kind)) < LIVES
    ensures !Resolves(ApplyAll(slots, ops), name, k)
  {
    var released := Releases(slots, ops, Lookup(slots, name, kind));
    assert released % LIVES != 0 by {
      SmallRemainder(released);
    }
    ReuseExactly(slots, ops, name, kind, k);
  }

  lemma SmallRemainder(k: nat)
    requires k < LIVES
    ensures k % LIVES == k
  {
  }

  // ---------------------------------------------- the bound is the real one

  /** Release slot 0's current name and allocate again, n times over. */
  function Recycle(slots: seq<Slot>, kind: ObjectType, n: nat): (ops: seq<Op>)
    requires |slots| == OBJECT_SLOT_COUNT
  {
    if n == 0 then []
    else
      var ops := Recycle(slots, kind, n - 1);
      ops + [ReleaseOp(Encode(0, ApplyAll(slots, ops)[0].generation), kind), AllocateOp(kind)]
  }

  lemma ApplyTwo(slots: seq<Slot>, ops: seq<Op>, a: Op, b: Op)
    requires |slots| == OBJECT_SLOT_COUNT
    ensures ApplyAll(slots, ops + [a, b]) == Apply(Apply(ApplyAll(slots, ops), a), b)
    ensures forall i :: Releases(slots, ops + [a, b], i)
              == Releases(slots, ops, i)
               + (if a.ReleaseOp? && Lookup(ApplyAll(slots, ops), a.name, a.kind) == i then 1 else 0)
               + (if b.ReleaseOp? && Lookup(Apply(ApplyAll(slots, ops), a), b.name, b.kind) == i then 1 else 0)
  {
    var both := ops + [a, b];
    assert both[..|both| - 1] == ops + [a];
    assert (ops + [a])[..|ops|] == ops;
  }

  lemma {:induction false} RecyclingReleasesOnce(slots: seq<Slot>, kind: ObjectType, n: nat)
    requires TableValid(slots) && kind != NoType
    requires slots[0].kind == kind && slots[0].state != Free
    ensures var after := ApplyAll(slots, Recycle(slots, kind, n));
            && TableValid(after) && after[0].kind == kind && after[0].state != Free
            && Releases(slots, Recycle(slots, kind, n), 0) == n
  {
    if n > 0 {
      RecyclingReleasesOnce(slots, kind, n - 1);
      var ops := Recycle(slots, kind, n - 1);
      var before := ApplyAll(slots, ops);
      var name := Encode(0, before[0].generation);
      NamesRoundTrip(0, before[0].generation, name);
      assert Lookup(before, name, kind) == 0;
      ReleaseNames(before, name, kind, name, kind);
      var mid := Released(before, 0);
      assert FirstFree(mid, 0) == 0;
      AllocationNames(mid, 0, kind, name, kind);
      ApplyTwo(slots, ops, ReleaseOp(name, kind), AllocateOp(kind));
    }
  }

  /** After 65535 releases of its slot a stale name does resolve again. */
  lemma StaleNameRevives(slots: seq<Slot>, kind: ObjectType, name: nat)
    requires TableValid(slots) && kind != NoType && Lookup(slots, name, kind) == 0
    ensures Releases(slots, Recycle(slots, kind, LIVES), 0) == LIVES
    ensures Resolves(ApplyAll(slots, Recycle(slots, kind, LIVES)), name, kind)
  {
    RecyclingReleasesOnce(slots, kind, LIVES);
    ReuseExactly(slots, Recycle(slots, kind, LIVES), name, kind, kind);
  }
}
