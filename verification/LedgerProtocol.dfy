/** The two-level CPU memory ledger as a concurrent protocol.

    Any number of contexts run at once. A context's own counters are touched
    only by the thread that is inside one of its calls, so they need no lock;
    the global counter is shared and every access to it is one locked region,
    hence one atomic step. Each step below is one such region, one call to
    malloc or free, or one update of a context's own counters, and steps of
    different contexts interleave freely. malloc may fail at any call.
 */
module LedgerProtocol {
  import opened Limits
  import opened StagingBlocks

  /** What blocks are freed for. The first three walk over all of them. */
  datatype Goal =
    | Retry(bytes: nat, staged: bool) // idle blocks go, then the reservation is tried again
    | Return(block: nat)              // idle blocks go, then a returned block is shelved if it fits
    | Teardown                        // all blocks go
    | Evict                           // one returned block goes

  /** Where the thread inside a context's call has got to. */
  datatype Phase =
    | Idle                                   // no call in flight
    | Creating                               // record reserved, calloc comes next
    | Admit(bytes: nat, staged: bool, retried: bool) // local room is tested, then the lock is taken
    | Admitted(bytes: nat, staged: bool)     // the global counter has the bytes, the local one does not yet
    | Charged(bytes: nat, staged: bool)      // both counters have them, malloc comes next
    | Walk(k: nat, goal: Goal)               // block k is the next one to visit
    | WalkFreed(k: nat, goal: Goal)          // its memory is freed, the local charge comes next
    | WalkUncharged(k: nat, released: nat, goal: Goal) // its local charge is gone, the global one comes next
    | Activate(k: nat)                       // block k left the cached bucket, the active one comes next
    | Shelve(k: nat)                         // block k left the active bucket, the cached one comes next
    | Discharge(bytes: nat)                  // memory gone or never obtained: local counter next
    | Release(bytes: nat)                    // local counter done: global counter next
    | Gone                                   // destroyed, or never created

  /** One context. `heap` lists the sizes of the client allocations it owns
      (buffer and texture shadows, temporaries, untracked staging). */
  datatype Ctx = Ctx(
    record: bool, active: nat, cached: nat, blocks: seq<Block>, heap: seq<nat>, phase: Phase)

  datatype State = State(global: nat, contexts: seq<Ctx>)

  /** A call being started, or the next step of the call in flight. */
  datatype Action =
    | Alloc(bytes: nat, staged: bool)
    | FreeHeap(index: nat)
    | FreeStaging(k: nat)
    | Destroy
    | Advance(memory: nat)

  // ---------------------------------------------------------------- steps

  predicate LocalRoom(c: Ctx, bytes: nat) {
    && c.active <= MAX_CPU_SHADOW_BYTES
    && c.cached <= MAX_CPU_SHADOW_BYTES - c.active
    && bytes <= MAX_CPU_SHADOW_BYTES - c.active - c.cached
  }

  function Drop(heap: seq<nat>, j: nat): seq<nat>
    requires j < |heap|
  {
    heap[..j] + heap[j + 1..]
  }

  /** A call starts. A result equal to the argument is a call that does nothing. */
  function Begin(c: Ctx, a: Action): (r: Ctx)
    requires c.phase == Idle && !a.Advance? && |c.blocks| == STAGING_CACHE_BLOCK_COUNT
  {
    match a
    case Alloc(bytes, staged) =>
      var k := FirstIdle(c.blocks, bytes, 0);
      if bytes == 0 then c
      else if staged && k < STAGING_CACHE_BLOCK_COUNT then
        var capacity := c.blocks[k].capacity;
        c.(cached := c.cached - Min(c.cached, capacity), blocks := c.blocks[k := c.blocks[k].(inUse := true)], phase := Activate(k))
      else if bytes <= MAX_CPU_SHADOW_BYTES then c.(phase := Admit(bytes, staged, false))
      else c
    case FreeHeap(j) =>
      if j < |c.heap| then c.(heap := Drop(c.heap, j), phase := Discharge(c.heap[j])) else c
    case FreeStaging(k) =>
      if k < STAGING_CACHE_BLOCK_COUNT && c.blocks[k].memory != 0 && c.blocks[k].inUse then
        if c.blocks[k].capacity <= STAGING_CACHE_MAX_BLOCK_BYTES && !ShelfRoom(c, c.blocks[k].capacity) then
          c.(phase := Walk(0, Return(k)))
        else ShelveOrFree(c, k)
      else c
    case Destroy => c.(phase := Walk(0, Teardown))
  }

  /** The test in ringl_context_free_staging that lets a block join the cache
      without trimming it first. */
  predicate ShelfRoom(c: Ctx, capacity: nat) {
    && c.cached <= STAGING_CACHE_MAX_BYTES
    && capacity <= STAGING_CACHE_MAX_BYTES - c.cached
  }

  /** A returned block joins the cache if it is small enough and fits, or is freed. */
  function ShelveOrFree(c: Ctx, k: nat): Ctx
    requires k < |c.blocks|
  {
    if c.blocks[k].capacity <= STAGING_CACHE_MAX_BLOCK_BYTES && ShelfRoom(c, c.blocks[k].capacity) then
      c.(active := c.active - Min(c.active, c.blocks[k].capacity), phase := Shelve(k))
    else c.(phase := WalkFreed(k, Evict))
  }

  /** The next step of the call in flight. */
  function Continue(c: Ctx, global: nat, memory: nat, recordBytes: nat): (r: (Ctx, nat))
    requires c.phase != Idle && c.phase != Gone && |c.blocks| == STAGING_CACHE_BLOCK_COUNT
    requires PhaseIndexOk(c.phase)
  {
    match c.phase
    case Creating =>
      if memory != 0 then (c.(record := true, phase := Idle), global)
      else (c.(phase := Release(recordBytes)), global)
    case Admit(n, staged, retried) =>
      if LocalRoom(c, n) && n <= MAX_GLOBAL_CPU_ALLOCATION_BYTES && global <= MAX_GLOBAL_CPU_ALLOCATION_BYTES - n then
        (c.(phase := Admitted(n, staged)), global + n)
      else if !retried then (c.(phase := Walk(0, Retry(n, staged))), global)
      else (c.(phase := Idle), global)
    case Admitted(n, staged) => (c.(active := c.active + n, phase := Charged(n, staged)), global)
    case Charged(n, staged) =>
      var k := FirstEmpty(c.blocks, 0);
      if memory == 0 then (c.(phase := Discharge(n)), global)
      else if staged && n <= STAGING_CACHE_MAX_BLOCK_BYTES && k < STAGING_CACHE_BLOCK_COUNT then
        (c.(blocks := c.blocks[k := Block(memory, n, true)], phase := Idle), global)
      else (c.(heap := c.heap + [n], phase := Idle), global)
    case Walk(k, goal) =>
      if k == STAGING_CACHE_BLOCK_COUNT then
        match goal {
          case Retry(n, staged) => (c.(phase := Admit(n, staged, true)), global)
          case Return(block) => (ShelveOrFree(c, block), global)
          case Teardown => (c.(record := false, phase := Release(recordBytes)), global)
          case Evict => (c.(phase := Idle), global)
        }
      else if c.blocks[k].memory == 0 || (!goal.Teardown? && c.blocks[k].inUse) then
        (c.(phase := Walk(k + 1, goal)), global)
      else (c.(phase := WalkFreed(k, goal)), global)
    case WalkFreed(k, goal) =>
      var capacity := c.blocks[k].capacity;
      if c.blocks[k].inUse then
        (c.(active := c.active - Min(c.active, capacity), phase := WalkUncharged(k, Min(c.active, capacity), goal)), global)
      else
        (c.(cached := c.cached - Min(c.cached, capacity), phase := WalkUncharged(k, Min(c.cached, capacity), goal)), global)
    case WalkUncharged(k, released, goal) =>
      (c.(blocks := c.blocks[k := NO_BLOCK], phase := if goal.Evict? then Idle else Walk(k + 1, goal)),
       AfterRelease(global, released))
    case Activate(k) => (c.(active := c.active + c.blocks[k].capacity, phase := Idle), global)
    case Shelve(k) =>
      (c.(cached := c.cached + c.blocks[k].capacity,
          blocks := c.blocks[k := c.blocks[k].(inUse := false)], phase := Idle), global)
    case Discharge(n) =>
      (c.(active := c.active - Min(c.active, n), phase := Release(Min(c.active, n))), global)
    case Release(n) => (c.(phase := if c.record then Idle else Gone), AfterRelease(global, n))
  }

  predicate PhaseIndexOk(p: Phase) {
    match p
    case Walk(k, goal) => k <= STAGING_CACHE_BLOCK_COUNT && (goal.Return? ==> goal.block < STAGING_CACHE_BLOCK_COUNT)
    case WalkFreed(k, goal) => k < STAGING_CACHE_BLOCK_COUNT && (goal.Return? ==> goal.block < STAGING_CACHE_BLOCK_COUNT)
    case WalkUncharged(k, _, goal) => k < STAGING_CACHE_BLOCK_COUNT && (goal.Return? ==> goal.block < STAGING_CACHE_BLOCK_COUNT)
    case Activate(k) => k < STAGING_CACHE_BLOCK_COUNT
    case Shelve(k) => k < STAGING_CACHE_BLOCK_COUNT
    case _ => true
  }

  const EMPTY_BLOCKS: seq<Block> := [NO_BLOCK, NO_BLOCK, NO_BLOCK, NO_BLOCK]

  /** A context step: some context starts a call or takes its next step. */
  ghost predicate CtxStep(s: State, s': State, recordBytes: nat, i: nat, a: Action) {
    && i < |s.contexts|
    && var c := s.contexts[i];
       && |c.blocks| == STAGING_CACHE_BLOCK_COUNT && PhaseIndexOk(c.phase) && c.phase != Gone
       && (c.phase == Idle <==> !a.Advance?)
       && if c.phase == Idle then s' == s.(contexts := s.contexts[i := Begin(c, a)])
          else var r := Continue(c, s.global, a.memory, recordBytes);
               s' == State(r.1, s.contexts[i := r.0])
  }

  /** ringl_context_create reserves the record's bytes in the shared budget first. */
  ghost predicate CreateStep(s: State, s': State, recordBytes: nat) {
    && 0 < recordBytes <= MAX_GLOBAL_CPU_ALLOCATION_BYTES
    && s.global <= MAX_GLOBAL_CPU_ALLOCATION_BYTES - recordBytes
    && s' == State(s.global + recordBytes, s.contexts + [Ctx(false, 0, 0, EMPTY_BLOCKS, [], Creating)])
  }

  ghost predicate Next(s: State, s': State, recordBytes: nat) {
    || CreateStep(s, s', recordBytes)
    || exists i, a :: CtxStep(s, s', recordBytes, i, a)
  }

  ghost predicate Run(states: seq<State>, recordBytes: nat) {
    && 0 < |states|
    && states[0] == State(0, [])
    && forall t :: 0 <= t < |states| - 1 ==> Next(states[t], states[t + 1], recordBytes)
  }

  // ------------------------------------------------------------ accounting

  function Sum(xs: seq<nat>): nat {
    if xs == [] then 0 else Sum(xs[..|xs| - 1]) + xs[|xs| - 1]
  }

  function RecordBytes(c: Ctx, recordBytes: nat): nat { if c.record then recordBytes else 0 }

  /** Heap bytes the context keeps alive right now. A block whose memory was
      just freed still sits in its slot until the slot is cleared. */
  function Live(c: Ctx, recordBytes: nat): int {
    var freed := if (c.phase.WalkFreed? || c.phase.WalkUncharged?) && c.phase.k < |c.blocks|
                 then c.blocks[c.phase.k].capacity else 0;
    Sum(c.heap) + InUseBytes(c.blocks) + IdleBytes(c.blocks) + RecordBytes(c, recordBytes) - freed
  }

  /** What the context's own counters say it uses. */
  function Charge(c: Ctx, recordBytes: nat): nat { c.active + c.cached + RecordBytes(c, recordBytes) }

  /** Bytes that the global counter holds for the context but neither of the
      context's own counters shows: the call in flight is between two steps. */
  function InFlight(c: Ctx, recordBytes: nat): nat {
    match c.phase
    case Creating => recordBytes
    case Admitted(n, _) => n
    case WalkUncharged(_, released, _) => released
    case Activate(k) => if k < |c.blocks| then c.blocks[k].capacity else 0
    case Shelve(k) => if k < |c.blocks| then c.blocks[k].capacity else 0
    case Release(n) => n
    case _ => 0
  }

  function Share(c: Ctx, recordBytes: nat): nat { Charge(c, recordBytes) + InFlight(c, recordBytes) }

  function TotalShare(cs: seq<Ctx>, recordBytes: nat): nat {
    if cs == [] then 0 else TotalShare(cs[..|cs| - 1], recordBytes) + Share(cs[|cs| - 1], recordBytes)
  }

  function TotalCharge(cs: seq<Ctx>, recordBytes: nat): nat {
    if cs == [] then 0 else TotalCharge(cs[..|cs| - 1], recordBytes) + Charge(cs[|cs| - 1], recordBytes)
  }

  function TotalLive(cs: seq<Ctx>, recordBytes: nat): int {
    if cs == [] then 0 else TotalLive(cs[..|cs| - 1], recordBytes) + Live(cs[|cs| - 1], recordBytes)
  }

  // ------------------------------------------------------------- invariant

  /** How far the active counter is from the memory it stands for. */
  function ActiveExcess(c: Ctx): int {
    match c.phase
    case Charged(n, _) => n
    case Discharge(n) => n
    case WalkUncharged(k, _, _) => if k < |c.blocks| && c.blocks[k].inUse then 0 - c.blocks[k].capacity else 0
    case Activate(k) => if k < |c.blocks| then 0 - c.blocks[k].capacity else 0
    case Shelve(k) => if k < |c.blocks| then 0 - c.blocks[k].capacity else 0
    case _ => 0
  }

  function CachedExcess(c: Ctx): int {
    match c.phase
    case WalkUncharged(k, _, _) => if k < |c.blocks| && !c.blocks[k].inUse then 0 - c.blocks[k].capacity else 0
    case _ => 0
  }

  ghost predicate CtxInv(c: Ctx) {
    && WellFormed(c.blocks)
    && PhaseIndexOk(c.phase)
    && c.active == Sum(c.heap) + InUseBytes(c.blocks) + ActiveExcess(c)
    && c.cached == IdleBytes(c.blocks) + CachedExcess(c)
    && c.active + c.cached + (if c.record then InFlight(c, 0) else 0) <= MAX_CPU_SHADOW_BYTES
    && (c.record ==> c.phase != Gone && c.phase != Creating)
    && (!c.record ==> c.phase.Gone? || c.phase.Creating? || c.phase.Release?)
    && (!c.record ==> forall k :: 0 <= k < |c.blocks| ==> c.blocks[k].memory == 0)
    && PhaseInv(c)
  }

  /** What each program point may rely on. */
  ghost predicate PhaseInv(c: Ctx)
    requires |c.blocks| == STAGING_CACHE_BLOCK_COUNT && PhaseIndexOk(c.phase)
  {
    match c.phase
    case Admit(n, _, _) => 0 < n <= MAX_CPU_SHADOW_BYTES
    case Admitted(n, _) => 0 < n
    case Charged(n, _) => 0 < n
    case Walk(k, goal) => GoalInv(goal) && Cleared(c.blocks, k, goal)
    case WalkFreed(k, goal) =>
      GoalInv(goal) && Cleared(c.blocks, k, goal) && c.blocks[k].memory != 0 && (goal.Retry? ==> !c.blocks[k].inUse)
    case WalkUncharged(k, released, goal) =>
      && released == c.blocks[k].capacity
      && GoalInv(goal) && Cleared(c.blocks, k, goal) && c.blocks[k].memory != 0 && (goal.Retry? ==> !c.blocks[k].inUse)
    case Activate(k) => c.blocks[k].inUse
    case Shelve(k) => c.blocks[k].inUse
    case _ => true
  }

  /** Neither fallback of a staging free is ever taken. */
  ghost predicate GoalInv(goal: Goal) {
    match goal
    case Retry(bytes, _) => 0 < bytes <= MAX_CPU_SHADOW_BYTES
    case Teardown => true
    case _ => false
  }

  /** The walk leaves no idle block behind it, and none at all in a teardown. */
  ghost predicate Cleared(blocks: seq<Block>, k: nat, goal: Goal)
    requires k <= |blocks|
  {
    forall j :: 0 <= j < k ==> blocks[j].memory == 0 || (goal.Retry? && blocks[j].inUse)
  }

  ghost predicate AllCtxInv(cs: seq<Ctx>) {
    forall i :: 0 <= i < |cs| ==> CtxInv(cs[i])
  }

  ghost predicate Inv(s: State, recordBytes: nat) {
    && AllCtxInv(s.contexts)
    && s.global == TotalShare(s.contexts, recordBytes)
    && s.global <= MAX_GLOBAL_CPU_ALLOCATION_BYTES
  }

  // --------------------------------------------------- one context's steps

  lemma {:induction false} SumDrop(heap: seq<nat>, j: nat)
    requires j < |heap|
    ensures Sum(Drop(heap, j)) == Sum(heap) - heap[j]
  {
    var last := |heap| - 1;
    if j == last {
      assert Drop(heap, j) == heap[..last];
    } else {
      SumDrop(heap[..last], j);
      assert Drop(heap, j)[..|heap| - 2] == Drop(heap[..last], j);
      assert Drop(heap, j)[|heap| - 2] == heap[last];
    }
  }

  lemma SumAppend(heap: seq<nat>, n: nat)
    ensures Sum(heap + [n]) == Sum(heap) + n
  {
    assert (heap + [n])[..|heap|] == heap;
  }

  lemma BlockFacts(c: Ctx)
    requires CtxInv(c)
    ensures forall k :: 0 <= k < |c.blocks| && c.blocks[k].inUse ==> c.blocks[k].capacity <= InUseBytes(c.blocks)
    ensures forall k :: 0 <= k < |c.blocks| && !c.blocks[k].inUse ==> c.blocks[k].capacity <= IdleBytes(c.blocks)
  {
    BlockBytesBound(c.blocks, |c.blocks|, true);
    BlockBytesBound(c.blocks, |c.blocks|, false);
  }

  /** What one step owes: the context's invariant, and a share that moves
      exactly as the global counter does. */
  ghost predicate StepOwes(c: Ctx, global: nat, c': Ctx, global': nat, recordBytes: nat) {
    && CtxInv(c')
    && Share(c', recordBytes) - Share(c, recordBytes) == global' - global
    && global' <= MAX_GLOBAL_CPU_ALLOCATION_BYTES
  }

  ghost predicate StepMay(c: Ctx, global: nat, recordBytes: nat) {
    CtxInv(c) && Share(c, recordBytes) <= global <= MAX_GLOBAL_CPU_ALLOCATION_BYTES
  }

  lemma AllocKeeps(c: Ctx, bytes: nat, staged: bool, global: nat, recordBytes: nat)
    requires StepMay(c, global, recordBytes) && c.phase == Idle
    ensures StepOwes(c, global, Begin(c, Alloc(bytes, staged)), global, recordBytes)
  {
    var k := FirstIdle(c.blocks, bytes, 0);
    if bytes != 0 && staged && k < STAGING_CACHE_BLOCK_COUNT {
      BlockFacts(c);
      var b := c.blocks[k].(inUse := true);
      BlockBytesUpdate(c.blocks, k, b, |c.blocks|, true);
      BlockBytesUpdate(c.blocks, k, b, |c.blocks|, false);
    }
  }

  lemma FreeHeapKeeps(c: Ctx, j: nat, global: nat, recordBytes: nat)
    requires StepMay(c, global, recordBytes) && c.phase == Idle
    ensures StepOwes(c, global, Begin(c, FreeHeap(j)), global, recordBytes)
  {
    if j < |c.heap| {
      SumDrop(c.heap, j);
      var c' := Begin(c, FreeHeap(j));
      assert c'.blocks == c.blocks && InUseBytes(c'.blocks) == InUseBytes(c.blocks) && IdleBytes(c'.blocks) == IdleBytes(c.blocks);
    }
  }

  lemma FreeStagingKeeps(c: Ctx, k: nat, global: nat, recordBytes: nat)
    requires StepMay(c, global, recordBytes) && c.phase == Idle
    ensures StepOwes(c, global, Begin(c, FreeStaging(k)), global, recordBytes)
  {
    BlockFacts(c);
    if k < STAGING_CACHE_BLOCK_COUNT && c.blocks[k].inUse {
      IdleLeavesRoom(c.blocks, k, |c.blocks|);
    }
    var c' := Begin(c, FreeStaging(k));
    assert c'.blocks == c.blocks && InUseBytes(c'.blocks) == InUseBytes(c.blocks) && IdleBytes(c'.blocks) == IdleBytes(c.blocks);
  }

  lemma AdmissionKeeps(c: Ctx, global: nat, memory: nat, recordBytes: nat)
    requires StepMay(c, global, recordBytes)
    requires c.phase.Creating? || c.phase.Admit? || c.phase.Admitted?
    ensures var r := Continue(c, global, memory, recordBytes); StepOwes(c, global, r.0, r.1, recordBytes)
  {
    var r := Continue(c, global, memory, recordBytes);
    assert r.0.blocks == c.blocks && r.0.heap == c.heap && r.0.cached == c.cached;
    assert InUseBytes(r.0.blocks) == InUseBytes(c.blocks) && IdleBytes(r.0.blocks) == IdleBytes(c.blocks);
  }

  lemma MallocKeeps(c: Ctx, global: nat, memory: nat, recordBytes: nat)
    requires StepMay(c, global, recordBytes) && c.phase.Charged?
    ensures var r := Continue(c, global, memory, recordBytes); StepOwes(c, global, r.0, r.1, recordBytes)
  {
    hide BlockBytes, FirstEmpty, Sum;
    var n := c.phase.bytes;
    var k := FirstEmpty(c.blocks, 0);
    if memory == 0 {
      var r := Continue(c, global, memory, recordBytes);
      assert r.0.blocks == c.blocks && InUseBytes(r.0.blocks) == InUseBytes(c.blocks) && IdleBytes(r.0.blocks) == IdleBytes(c.blocks);
    } else if !(c.phase.staged && n <= STAGING_CACHE_MAX_BLOCK_BYTES && k < STAGING_CACHE_BLOCK_COUNT) {
      SumAppend(c.heap, n);
      var r := Continue(c, global, memory, recordBytes);
      assert r.0.blocks == c.blocks && InUseBytes(r.0.blocks) == InUseBytes(c.blocks) && IdleBytes(r.0.blocks) == IdleBytes(c.blocks);
    } else {
      BlockBytesUpdate(c.blocks, k, Block(memory, n, true), |c.blocks|, true);
      BlockBytesUpdate(c.blocks, k, Block(memory, n, true), |c.blocks|, false);
    }
  }

  lemma WalkKeeps(c: Ctx, global: nat, memory: nat, recordBytes: nat)
    requires StepMay(c, global, recordBytes) && (c.phase.Walk? || c.phase.WalkFreed?)
    ensures var r := Continue(c, global, memory, recordBytes); StepOwes(c, global, r.0, r.1, recordBytes)
  {
    hide BlockBytes, Sum;
    var r := Continue(c, global, memory, recordBytes);
    assert r.0.blocks == c.blocks && r.0.heap == c.heap;
    assert InUseBytes(r.0.blocks) == InUseBytes(c.blocks) && IdleBytes(r.0.blocks) == IdleBytes(c.blocks);
    if c.phase.WalkFreed? {
      BlockFacts(c);
      assert r.0.phase.released == c.blocks[c.phase.k].capacity;
    }
  }

  lemma ClearKeeps(c: Ctx, global: nat, memory: nat, recordBytes: nat)
    requires StepMay(c, global, recordBytes) && c.phase.WalkUncharged?
    ensures var r := Continue(c, global, memory, recordBytes); StepOwes(c, global, r.0, r.1, recordBytes)
  {
    var k := c.phase.k;
    BlockBytesUpdate(c.blocks, k, NO_BLOCK, |c.blocks|, true);
    BlockBytesUpdate(c.blocks, k, NO_BLOCK, |c.blocks|, false);
  }

  lemma MoveKeeps(c: Ctx, global: nat, memory: nat, recordBytes: nat)
    requires StepMay(c, global, recordBytes)
    requires c.phase.Activate? || c.phase.Shelve? || c.phase.Discharge? || c.phase.Release?
    ensures var r := Continue(c, global, memory, recordBytes); StepOwes(c, global, r.0, r.1, recordBytes)
  {
    if !c.phase.Shelve? {
      var r := Continue(c, global, memory, recordBytes);
      assert r.0.blocks == c.blocks && InUseBytes(r.0.blocks) == InUseBytes(c.blocks) && IdleBytes(r.0.blocks) == IdleBytes(c.blocks);
    } else {
      var k := c.phase.k;
      var b := c.blocks[k].(inUse := false);
      BlockBytesUpdate(c.blocks, k, b, |c.blocks|, true);
      BlockBytesUpdate(c.blocks, k, b, |c.blocks|, false);
    }
  }

  // -------------------------------------------------- all contexts at once

  lemma {:induction false} ShareUpdate(cs: seq<Ctx>, i: nat, c: Ctx, recordBytes: nat)
    requires i < |cs|
    ensures TotalShare(cs[i := c], recordBytes)
         == TotalShare(cs, recordBytes) - Share(cs[i], recordBytes) + Share(c, recordBytes)
    ensures Share(cs[i], recordBytes) <= TotalShare(cs, recordBytes)
  {
    var last := |cs| - 1;
    if i == last {
      assert cs[i := c][..last] == cs[..last];
    } else {
      ShareUpdate(cs[..last], i, c, recordBytes);
      assert cs[i := c][..last] == cs[..last][i := c];
    }
  }

  lemma BeginKeeps(c: Ctx, global: nat, a: Action, recordBytes: nat)
    requires StepMay(c, global, recordBytes) && c.phase == Idle && !a.Advance?
    ensures StepOwes(c, global, Begin(c, a), global, recordBytes)
  {
    match a
    case Alloc(bytes, staged) => AllocKeeps(c, bytes, staged, global, recordBytes);
    case FreeHeap(j) => FreeHeapKeeps(c, j, global, recordBytes);
    case FreeStaging(k) => FreeStagingKeeps(c, k, global, recordBytes);
    case Destroy =>
  }

  lemma ContinueKeeps(c: Ctx, global: nat, memory: nat, recordBytes: nat)
    requires StepMay(c, global, recordBytes) && c.phase != Idle && c.phase != Gone
    ensures var r := Continue(c, global, memory, recordBytes); StepOwes(c, global, r.0, r.1, recordBytes)
  {
    match c.phase
    case Creating => AdmissionKeeps(c, global, memory, recordBytes);
    case Admit(_, _, _) => AdmissionKeeps(c, global, memory, recordBytes);
    case Admitted(_, _) => AdmissionKeeps(c, global, memory, recordBytes);
    case Charged(_, _) => MallocKeeps(c, global, memory, recordBytes);
    case Walk(_, _) => WalkKeeps(c, global, memory, recordBytes);
    case WalkFreed(_, _) => WalkKeeps(c, global, memory, recordBytes);
    case WalkUncharged(_, _, _) => ClearKeeps(c, global, memory, recordBytes);
    case _ => MoveKeeps(c, global, memory, recordBytes);
  }

  /** One step of any context, in any state the invariant allows. */
  lemma CtxStepKeepsInv(s: State, s': State, recordBytes: nat, i: nat, a: Action)
    requires Inv(s, recordBytes) && CtxStep(s, s', recordBytes, i, a)
    ensures Inv(s', recordBytes)
  {
    var c := s.contexts[i];
    ShareUpdate(s.contexts, i, s'.contexts[i], recordBytes);
    assert StepMay(c, s.global, recordBytes);
    if c.phase == Idle {
      BeginKeeps(c, s.global, a, recordBytes);
    } else {
      ContinueKeeps(c, s.global, a.memory, recordBytes);
    }
    assert CtxInv(s'.contexts[i]);
  }

  lemma FreshCtxInv(c: Ctx)
    requires c == Ctx(false, 0, 0, EMPTY_BLOCKS, [], Creating)
    ensures CtxInv(c)
  {
    BlockBytesEmpty(c.blocks, |c.blocks|, true);
    BlockBytesEmpty(c.blocks, |c.blocks|, false);
  }

  lemma CreateShare(cs: seq<Ctx>, cs': seq<Ctx>, recordBytes: nat)
    requires cs' == cs + [Ctx(false, 0, 0, EMPTY_BLOCKS, [], Creating)]
    ensures TotalShare(cs', recordBytes) == TotalShare(cs, recordBytes) + recordBytes
  {
    assert cs'[..|cs'| - 1] == cs;
  }

  lemma AppendKeepsCtxInv(cs: seq<Ctx>, c: Ctx)
    requires AllCtxInv(cs) && CtxInv(c)
    ensures AllCtxInv(cs + [c])
  {
    forall i | 0 <= i < |cs + [c]|
      ensures CtxInv((cs + [c])[i])
    {
      if i < |cs| {
        assert (cs + [c])[i] == cs[i];
      } else {
        assert (cs + [c])[i] == c;
      }
    }
  }

  lemma CreateKeepsCtxInv(cs: seq<Ctx>, cs': seq<Ctx>)
    requires AllCtxInv(cs) && cs' == cs + [Ctx(false, 0, 0, EMPTY_BLOCKS, [], Creating)]
    ensures AllCtxInv(cs')
  {
    var c := Ctx(false, 0, 0, EMPTY_BLOCKS, [], Creating);
    FreshCtxInv(c);
    AppendKeepsCtxInv(cs, c);
  }

  lemma CreateKeepsTotal(s: State, s': State, recordBytes: nat)
    requires Inv(s, recordBytes) && CreateStep(s, s', recordBytes)
    ensures TotalShare(s'.contexts, recordBytes) == s'.global <= MAX_GLOBAL_CPU_ALLOCATION_BYTES
  {
    CreateShare(s.contexts, s'.contexts, recordBytes);
  }

  lemma InvIntro(s: State, recordBytes: nat)
    requires AllCtxInv(s.contexts) && TotalShare(s.contexts, recordBytes) == s.global <= MAX_GLOBAL_CPU_ALLOCATION_BYTES
    ensures Inv(s, recordBytes)
  {
  }

  lemma NextKeepsInv(s: State, s': State, recordBytes: nat)
    requires Inv(s, recordBytes) && Next(s, s', recordBytes)
    ensures Inv(s', recordBytes)
  {
    if i, a :| CtxStep(s, s', recordBytes, i, a) {
      CtxStepKeepsInv(s, s', recordBytes, i, a);
    } else {
      CreateKeepsTotal(s, s', recordBytes);
      CreateKeepsCtxInv(s.contexts, s'.contexts);
      InvIntro(s', recordBytes);
    }
  }

  lemma {:induction false} RunKeepsInv(states: seq<State>, recordBytes: nat, t: nat)
    requires Run(states, recordBytes) && t < |states|
    ensures Inv(states[t], recordBytes)
  {
    if t > 0 {
      RunKeepsInv(states, recordBytes, t - 1);
      assert Next(states[t - 1], states[t - 1 + 1], recordBytes);
      NextKeepsInv(states[t - 1], states[t], recordBytes);
    }
  }

  // --------------------------------------------------------------- results

  /** No call is in flight anywhere. */
  ghost predicate Quiescent(s: State) {
    forall i :: 0 <= i < |s.contexts| ==> s.contexts[i].phase == Idle || s.contexts[i].phase == Gone
  }

  /** One context: live bytes and visible charges stay under its share, with
      equality between calls. */
  lemma CtxBounds(c: Ctx, recordBytes: nat)
    requires CtxInv(c)
    ensures Live(c, recordBytes) <= Share(c, recordBytes)
    ensures Charge(c, recordBytes) <= Share(c, recordBytes)
    ensures c.active + c.cached <= MAX_CPU_SHADOW_BYTES
    ensures c.phase == Idle || c.phase == Gone ==>
              Live(c, recordBytes) == Charge(c, recordBytes) == Share(c, recordBytes)
    ensures c.phase == Gone ==> Charge(c, recordBytes) == Sum(c.heap)
  {
    BlockFacts(c);
    if c.phase.Gone? {
      BlockBytesEmpty(c.blocks, |c.blocks|, true);
      BlockBytesEmpty(c.blocks, |c.blocks|, false);
    }
  }

  lemma {:induction false} TotalBounds(cs: seq<Ctx>, recordBytes: nat)
    requires forall i :: 0 <= i < |cs| ==> CtxInv(cs[i])
    ensures TotalLive(cs, recordBytes) <= TotalShare(cs, recordBytes)
    ensures TotalCharge(cs, recordBytes) <= TotalShare(cs, recordBytes)
    ensures (forall i :: 0 <= i < |cs| ==> cs[i].phase == Idle || cs[i].phase == Gone) ==>
              TotalLive(cs, recordBytes) == TotalCharge(cs, recordBytes) == TotalShare(cs, recordBytes)
  {
    if cs != [] {
      TotalBounds(cs[..|cs| - 1], recordBytes);
      CtxBounds(cs[|cs| - 1], recordBytes);
    }
  }

  /** The budget theorem: in every state of every interleaving, live heap bytes
      never exceed the global counter, the counter never exceeds 1 GiB and never
      falls below the sum of all visible charges, every context stays within
      512 MiB, and between calls all three totals agree. */
  lemma BudgetHoldsInEveryRun(states: seq<State>, recordBytes: nat, t: nat)
    requires Run(states, recordBytes) && t < |states|
    ensures var s := states[t];
            && TotalLive(s.contexts, recordBytes) <= s.global <= MAX_GLOBAL_CPU_ALLOCATION_BYTES
            && TotalCharge(s.contexts, recordBytes) <= s.global
            && (forall i :: 0 <= i < |s.contexts| ==>
                  s.contexts[i].active + s.contexts[i].cached <= MAX_CPU_SHADOW_BYTES)
            && (Quiescent(s) ==>
                  s.global == TotalCharge(s.contexts, recordBytes) == TotalLive(s.contexts, recordBytes))
  {
    RunKeepsInv(states, recordBytes, t);
    var s := states[t];
    TotalBounds(s.contexts, recordBytes);
    forall i | 0 <= i < |s.contexts|
      ensures s.contexts[i].active + s.contexts[i].cached <= MAX_CPU_SHADOW_BYTES
    {
      CtxBounds(s.contexts[i], recordBytes);
    }
  }

  lemma {:induction false} EmptyWhenAllGone(cs: seq<Ctx>, recordBytes: nat)
    requires forall i :: 0 <= i < |cs| ==> CtxInv(cs[i]) && cs[i].phase == Gone && cs[i].heap == []
    ensures TotalShare(cs, recordBytes) == 0
  {
    if cs != [] {
      EmptyWhenAllGone(cs[..|cs| - 1], recordBytes);
      CtxBounds(cs[|cs| - 1], recordBytes);
    }
  }

  /** Once every context is destroyed, and each freed what it owned first, the
      shared budget is back where it started. */
  lemma TeardownReturnsTheBudget(states: seq<State>, recordBytes: nat, t: nat)
    requires Run(states, recordBytes) && t < |states|
    requires forall i :: 0 <= i < |states[t].contexts| ==>
               states[t].contexts[i].phase == Gone && states[t].contexts[i].heap == []
    ensures states[t].global == 0
  {
    RunKeepsInv(states, recordBytes, t);
    EmptyWhenAllGone(states[t].contexts, recordBytes);
  }

  lemma BlocksHaveRoom(c: Ctx, k: nat)
    requires CtxInv(c) && k < STAGING_CACHE_BLOCK_COUNT
    ensures |c.blocks| == STAGING_CACHE_BLOCK_COUNT && c.cached <= STAGING_CACHE_MAX_BYTES
    ensures c.phase == Idle ==> c.cached == IdleBytes(c.blocks)
    ensures c.phase == Idle && c.blocks[k].inUse ==> ShelveOrFree(c, k).phase.Shelve? && c.blocks[k].capacity <= c.active
    ensures c.phase == Idle && !c.blocks[k].inUse ==> c.blocks[k].capacity <= c.cached
  {
    BlockFacts(c);
    BlockBytesBound(c.blocks, |c.blocks|, false);
    if c.blocks[k].inUse {
      IdleLeavesRoom(c.blocks, k, |c.blocks|);
    }
  }

  lemma ReleasesFit(c: Ctx, recordBytes: nat)
    requires CtxInv(c)
    ensures c.phase.Walk? || c.phase.WalkFreed? || c.phase.WalkUncharged? ==> !c.phase.goal.Return? && !c.phase.goal.Evict?
    ensures c.phase.Discharge? ==> c.phase.bytes <= c.active
    ensures c.phase.Release? ==> c.phase.bytes <= Share(c, recordBytes)
    ensures c.phase.WalkUncharged? ==> c.phase.released <= Share(c, recordBytes)
  {
  }

  /** The defensive fallbacks never fire: no run ever takes a step of the trim or of
      the free that a returned block without room would need, reuse never drives the
      cached counter below zero, and no release is ever larger than the counter it
      leaves. */
  lemma FallbacksAreUnreachable(states: seq<State>, recordBytes: nat, t: nat, i: nat, k: nat)
    requires Run(states, recordBytes) && t < |states| && i < |states[t].contexts|
    requires k < STAGING_CACHE_BLOCK_COUNT
    ensures var c := states[t].contexts[i];
            && |c.blocks| == STAGING_CACHE_BLOCK_COUNT
            && c.cached <= STAGING_CACHE_MAX_BYTES
            && (c.phase == Idle ==> c.cached == IdleBytes(c.blocks))
            && (c.phase.Walk? || c.phase.WalkFreed? || c.phase.WalkUncharged? ==> !c.phase.goal.Return? && !c.phase.goal.Evict?)
            && (c.phase == Idle && c.blocks[k].inUse ==> ShelveOrFree(c, k).phase.Shelve? && c.blocks[k].capacity <= c.active)
            && (c.phase == Idle && !c.blocks[k].inUse ==> c.blocks[k].capacity <= c.cached)
            && (c.phase.Discharge? ==> c.phase.bytes <= c.active)
            && (c.phase.Release? ==> c.phase.bytes <= states[t].global)
            && (c.phase.WalkUncharged? ==> c.phase.released <= states[t].global)
  {
    hide CtxInv, Share, Run, ShelveOrFree, IdleBytes, TotalShare;
    RunKeepsInv(states, recordBytes, t);
    var s := states[t];
    ShareUpdate(s.contexts, i, s.contexts[i], recordBytes);
    BlocksHaveRoom(s.contexts[i], k);
    ReleasesFit(s.contexts[i], recordBytes);
  }
}
