/** The protocol run by one context alone computes what the sequential
    reservation of ContextLedger specifies: between its first test of the budgets
    and the charge, no other context takes a step. */
module SoloLedger {
  import opened Limits
  import opened StagingBlocks
  import opened LedgerProtocol
  import L = ContextLedger

  /** The reservation is still testing, or discarding the idle cache to test again. */
  predicate Reserving(p: Phase) {
    p.Admit? || ((p.Walk? || p.WalkFreed? || p.WalkUncharged?) && p.goal.Retry?)
  }

  /** Steps left, at most. */
  function Rank(p: Phase): nat
    requires PhaseIndexOk(p)
  {
    match p
    case Admit(_, _, retried) => if retried then 1 else 20
    case Walk(k, _) => 2 + 3 * (STAGING_CACHE_BLOCK_COUNT - k)
    case WalkFreed(k, _) => 1 + 3 * (STAGING_CACHE_BLOCK_COUNT - k)
    case WalkUncharged(k, _, _) => 3 * (STAGING_CACHE_BLOCK_COUNT - k)
    case _ => 0
  }

  /** The context alone, until the reservation is admitted or given up. */
  function Solo(c: Ctx, global: nat): (Ctx, nat)
    requires |c.blocks| == STAGING_CACHE_BLOCK_COUNT && PhaseIndexOk(c.phase)
    decreases Rank(c.phase)
  {
    if Reserving(c.phase) then
      var r := Continue(c, global, 0, 0);
      Solo(r.0, r.1)
    else (c, global)
  }

  /** Some idle blocks at the front have been discarded. */
  function TrimmedTo(blocks: seq<Block>, k: nat): seq<Block>
    requires k <= |blocks|
  {
    L.Trimmed(blocks[..k]) + blocks[k..]
  }

  lemma TrimmedToStep(blocks: seq<Block>, k: nat)
    requires k < |blocks|
    ensures TrimmedTo(blocks, k + 1) == TrimmedTo(blocks, k)[k := if blocks[k].inUse then blocks[k] else NO_BLOCK]
    ensures TrimmedTo(blocks, k)[k] == blocks[k]
    ensures TrimmedTo(blocks, |blocks|) == L.Trimmed(blocks) && TrimmedTo(blocks, 0) == blocks
  {
    assert blocks[..k + 1] == blocks[..k] + [blocks[k]];
    assert blocks[..|blocks|] == blocks;
  }

  lemma TrimmedLength(blocks: seq<Block>, k: nat)
    requires k <= |blocks|
    ensures |TrimmedTo(blocks, k)| == |blocks| && TrimmedTo(blocks, 0) == blocks
  {
  }

  /** The context while it discards its idle blocks. */
  function Walking(c: Ctx, k: nat, n: nat, staged: bool): Ctx
    requires k <= |c.blocks|
  {
    var blocks := TrimmedTo(c.blocks, k);
    c.(blocks := blocks, cached := BlockBytes(blocks, |blocks|, false), phase := Walk(k, Retry(n, staged)))
  }

  /** The walk discards every idle block, from both counters, and tests again. */
  lemma {:induction false} WalkTrims(c: Ctx, global: nat, k: nat, n: nat, staged: bool)
    requires WellFormed(c.blocks) && k <= STAGING_CACHE_BLOCK_COUNT
    requires c.cached == IdleBytes(c.blocks) <= global
    ensures var w := Walking(c, k, n, staged);
            var t := c.(blocks := L.Trimmed(c.blocks), cached := 0, phase := Admit(n, staged, true));
            && |w.blocks| == STAGING_CACHE_BLOCK_COUNT && w.cached <= c.cached
            && Solo(w, global - c.cached + w.cached) == Solo(t, global - c.cached)
    decreases STAGING_CACHE_BLOCK_COUNT - k
  {
    hide Solo, Continue;
    var w := Walking(c, k, n, staged);
    IdleShrinks(c.blocks, k);
    if k == STAGING_CACHE_BLOCK_COUNT {
      assert TrimmedTo(c.blocks, k) == L.Trimmed(c.blocks);
      L.TrimmedBytes(c.blocks, |c.blocks|);
      TestsAgain(w, global - c.cached + w.cached, n, staged);
    } else {
      TrimmedToStep(c.blocks, k);
      WalkTrims(c, global, k + 1, n, staged);
      WalkStep(c, global - c.cached + w.cached, k, n, staged);
    }
  }

  lemma {:induction false} IdleShrinks(blocks: seq<Block>, k: nat)
    requires k <= |blocks|
    ensures BlockBytes(TrimmedTo(blocks, k), |blocks|, false) <= BlockBytes(blocks, |blocks|, false)
  {
    hide TrimmedTo, BlockBytes, L.Trimmed;
    TrimmedLength(blocks, k);
    if k > 0 {
      IdleShrinks(blocks, k - 1);
      TrimmedToStep(blocks, k - 1);
      TrimmedLength(blocks, k - 1);
      BlockBytesUpdate(TrimmedTo(blocks, k - 1), k - 1, TrimmedTo(blocks, k)[k - 1], |blocks|, false);
    }
  }

  lemma OneStep(c: Ctx, global: nat, c': Ctx, global': nat)
    requires |c.blocks| == STAGING_CACHE_BLOCK_COUNT && PhaseIndexOk(c.phase) && Reserving(c.phase)
    requires Continue(c, global, 0, 0) == (c', global')
    ensures |c'.blocks| == STAGING_CACHE_BLOCK_COUNT && PhaseIndexOk(c'.phase)
    ensures Solo(c, global) == Solo(c', global')
  {
    hide Rank;
  }

  /** An idle block goes in three steps. */
  lemma Discards(c: Ctx, global: nat, k: nat, goal: Goal)
    requires |c.blocks| == STAGING_CACHE_BLOCK_COUNT && k < STAGING_CACHE_BLOCK_COUNT && c.phase == Walk(k, goal) && goal.Retry?
    requires c.blocks[k].memory != 0 && !c.blocks[k].inUse && c.blocks[k].capacity <= c.cached && c.blocks[k].capacity <= global
    ensures Solo(c, global)
         == Solo(c.(cached := c.cached - c.blocks[k].capacity, blocks := c.blocks[k := NO_BLOCK], phase := Walk(k + 1, goal)),
                 global - c.blocks[k].capacity)
  {
    hide Solo;
    var n := c.blocks[k].capacity;
    var freed := c.(phase := WalkFreed(k, goal));
    var uncharged := c.(cached := c.cached - n, phase := WalkUncharged(k, n, goal));
    OneStep(c, global, freed, global);
    OneStep(freed, global, uncharged, global);
    OneStep(uncharged, global, uncharged.(blocks := c.blocks[k := NO_BLOCK], phase := Walk(k + 1, goal)), global - n);
  }

  /** A block in use, or an empty slot, is passed over. */
  lemma PassesOver(c: Ctx, global: nat, k: nat, goal: Goal)
    requires |c.blocks| == STAGING_CACHE_BLOCK_COUNT && k < STAGING_CACHE_BLOCK_COUNT && c.phase == Walk(k, goal) && goal.Retry?
    requires c.blocks[k].memory == 0 || c.blocks[k].inUse
    ensures Solo(c, global) == Solo(c.(phase := Walk(k + 1, goal)), global)
  {
    hide Solo;
    OneStep(c, global, c.(phase := Walk(k + 1, goal)), global);
  }

  /** After the last block the budgets are tested again. */
  lemma TestsAgain(c: Ctx, global: nat, n: nat, staged: bool)
    requires |c.blocks| == STAGING_CACHE_BLOCK_COUNT && c.phase == Walk(STAGING_CACHE_BLOCK_COUNT, Retry(n, staged))
    ensures Solo(c, global) == Solo(c.(phase := Admit(n, staged, true)), global)
  {
    hide Solo;
    OneStep(c, global, c.(phase := Admit(n, staged, true)), global);
  }

  /** One block of the walk. */
  lemma WalkStep(c: Ctx, global: nat, k: nat, n: nat, staged: bool)
    requires WellFormed(c.blocks) && k < STAGING_CACHE_BLOCK_COUNT
    requires BlockBytes(TrimmedTo(c.blocks, k), |c.blocks|, false) <= global
    ensures var w, w' := Walking(c, k, n, staged), Walking(c, k + 1, n, staged);
            w'.cached <= w.cached && Solo(w, global) == Solo(w', global - w.cached + w'.cached)
  {
    hide Solo, Continue, TrimmedTo;
    var w, w' := Walking(c, k, n, staged), Walking(c, k + 1, n, staged);
    TrimmedToStep(c.blocks, k);
    TrimmedLength(c.blocks, k);
    BlockBytesUpdate(w.blocks, k, w'.blocks[k], |c.blocks|, false);
    if c.blocks[k].memory == 0 || c.blocks[k].inUse {
      assert w'.blocks == w.blocks;
      PassesOver(w, global, k, Retry(n, staged));
    } else {
      Discards(w, global, k, Retry(n, staged));
    }
  }

  /** One test of the budgets. */
  predicate Room(c: Ctx, global: nat, n: nat) {
    LocalRoom(c, n) && n <= MAX_GLOBAL_CPU_ALLOCATION_BYTES && global <= MAX_GLOBAL_CPU_ALLOCATION_BYTES - n
  }

  lemma Admits(c: Ctx, global: nat, n: nat, staged: bool, retried: bool)
    requires |c.blocks| == STAGING_CACHE_BLOCK_COUNT && c.phase == Admit(n, staged, retried) && Room(c, global, n)
    ensures Solo(c, global) == (c.(phase := Admitted(n, staged)), global + n)
  {
    OneStep(c, global, c.(phase := Admitted(n, staged)), global + n);
  }

  lemma GivesUp(c: Ctx, global: nat, n: nat, staged: bool)
    requires |c.blocks| == STAGING_CACHE_BLOCK_COUNT && c.phase == Admit(n, staged, true) && !Room(c, global, n)
    ensures Solo(c, global) == (c.(phase := Idle), global)
  {
    OneStep(c, global, c.(phase := Idle), global);
  }

  lemma TriesAgain(c: Ctx, global: nat, n: nat, staged: bool)
    requires WellFormed(c.blocks) && c.cached == IdleBytes(c.blocks) <= global
    requires c.phase == Admit(n, staged, false) && !Room(c, global, n)
    ensures Solo(c, global)
         == Solo(c.(blocks := L.Trimmed(c.blocks), cached := 0, phase := Admit(n, staged, true)), global - c.cached)
  {
    hide Solo, L.Trimmed;
    assert TrimmedTo(c.blocks, 0) == c.blocks by {
      TrimmedToStep(c.blocks, 0);
    }
    OneStep(c, global, Walking(c, 0, n, staged), global);
    WalkTrims(c, global, 0, n, staged);
  }

  lemma AtRest(c: Ctx)
    requires CtxInv(c) && c.phase == Idle
    ensures WellFormed(c.blocks) && c.cached == IdleBytes(c.blocks)
  {
  }

  /** Run alone, an allocation is admitted exactly when it fits both budgets with
      the idle cache given up; the cache is given up only when it does not fit
      beside it; and the shared counter loses what the cache gave up and gains
      what was admitted. */
  lemma SoloReservation(c: Ctx, global: nat, n: nat, staged: bool)
    requires CtxInv(c) && c.phase == Idle && c.record && 0 < n <= MAX_CPU_SHADOW_BYTES
    requires c.active + c.cached <= global <= MAX_GLOBAL_CPU_ALLOCATION_BYTES
    ensures var start := c.(phase := Admit(n, staged, false));
            var r := Solo(start, global);
            var fits := L.FitsWithoutCache(c.active, c.cached, global, n);
            var beside := L.FitsBesideCache(c.active, c.cached, global, n);
            && r.0 == c.(phase := if fits then Admitted(n, staged) else Idle,
                         blocks := if beside then c.blocks else L.Trimmed(c.blocks),
                         cached := if beside then c.cached else 0)
            && r.1 == (if beside then global else global - c.cached) + if fits then n else 0
  {
    hide Solo, CtxInv, L.Trimmed, IdleBytes, Continue;
    AtRest(c);
    var start := c.(phase := Admit(n, staged, false));
    if Room(start, global, n) {
      Admits(start, global, n, staged, false);
    } else {
      TriesAgain(start, global, n, staged);
      var t := c.(blocks := L.Trimmed(c.blocks), cached := 0, phase := Admit(n, staged, true));
      if Room(t, global - c.cached, n) {
        Admits(t, global - c.cached, n, staged, true);
      } else {
        GivesUp(t, global - c.cached, n, staged);
      }
    }
  }

  /** At most `n` steps of the call in flight, with no other context between them. */
  function Steps(c: Ctx, global: nat, memory: nat, n: nat): (Ctx, nat)
    requires |c.blocks| == STAGING_CACHE_BLOCK_COUNT && PhaseIndexOk(c.phase)
    decreases n
  {
    if n == 0 || c.phase == Idle || c.phase == Gone then (c, global)
    else
      var r := Continue(c, global, memory, 0);
      Steps(r.0, r.1, memory, n - 1)
  }

  /** A staging request that an idle block satisfies moves that block's capacity from
      the cached to the active bucket, as ActivateBlock does, and the shared counter
      stands still. */
  lemma SoloReuse(c: Ctx, global: nat, bytes: nat)
    requires CtxInv(c) && c.phase == Idle && c.record && 0 < bytes && FirstIdle(c.blocks, bytes, 0) < STAGING_CACHE_BLOCK_COUNT
    ensures var k := FirstIdle(c.blocks, bytes, 0);
            var b := c.blocks[k];
            b.capacity <= c.cached
            && Steps(Begin(c, Alloc(bytes, true)), global, 0, 1)
                 == (c.(active := c.active + b.capacity, cached := c.cached - b.capacity, blocks := c.blocks[k := b.(inUse := true)]), global)
  {
    hide CtxInv, IdleBytes;
    AtRest(c);
    IdleFits(c.blocks, FirstIdle(c.blocks, bytes, 0));
  }

  lemma IdleFits(blocks: seq<Block>, k: nat)
    requires WellFormed(blocks) && k < |blocks| && !blocks[k].inUse
    ensures blocks[k].capacity <= IdleBytes(blocks)
  {
    BlockBytesBound(blocks, |blocks|, false);
  }

  /** A returned block is shelved, as FreeStaging says: its capacity moves back and
      nothing is trimmed or freed. */
  lemma SoloReturn(c: Ctx, global: nat, k: nat)
    requires CtxInv(c) && c.phase == Idle && c.record && k < STAGING_CACHE_BLOCK_COUNT && c.blocks[k].memory != 0 && c.blocks[k].inUse
    ensures var b := c.blocks[k];
            b.capacity <= c.active
            && Steps(Begin(c, FreeStaging(k)), global, 0, 1)
                 == (c.(active := c.active - b.capacity, cached := c.cached + b.capacity, blocks := c.blocks[k := b.(inUse := false)]), global)
  {
    hide Sum, InFlight;
    BlockFacts(c);
    IdleLeavesRoom(c.blocks, k, |c.blocks|);
    BlockBytesBound(c.blocks, |c.blocks|, false);
  }

  /** An admitted request is charged and then backed by memory, in a slot if one is
      empty and the request is small enough; if malloc fails the charge goes back.
      This is what AllocFresh and AllocTemporary promise. */
  lemma SoloGrant(c: Ctx, global: nat, memory: nat, n: nat, staged: bool)
    requires |c.blocks| == STAGING_CACHE_BLOCK_COUNT && c.record && c.phase == Admitted(n, staged) && n <= global
    ensures var r := Steps(c, global, memory, 4);
            var k := FirstEmpty(c.blocks, 0);
            if memory == 0 then r == (c.(phase := Idle), global - n)
            else if staged && n <= STAGING_CACHE_MAX_BLOCK_BYTES && k < STAGING_CACHE_BLOCK_COUNT then
              r == (c.(active := c.active + n, blocks := c.blocks[k := Block(memory, n, true)], phase := Idle), global)
            else r == (c.(active := c.active + n, heap := c.heap + [n], phase := Idle), global)
  {
    var charged := Continue(c, global, memory, 0);
    assert Steps(c, global, memory, 4) == Steps(charged.0, global, memory, 3);
    var backed := Continue(charged.0, global, memory, 0);
    assert Steps(charged.0, global, memory, 3) == Steps(backed.0, global, memory, 2);
    if memory == 0 {
      var discharged := Continue(backed.0, global, memory, 0);
      assert Steps(backed.0, global, memory, 2) == Steps(discharged.0, global, memory, 1);
    }
  }
}
