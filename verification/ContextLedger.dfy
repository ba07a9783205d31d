/** One context's side of the ledger in src/context/context.c, call by call and
    with no other context running. LedgerProtocol covers the interleavings. */
module ContextLedger {
  import opened Limits
  import opened StagingBlocks
  import opened ContextState

  /** Holds between any two calls. `active - InUseBytes(blocks)` is what buffers,
      textures, temporaries and untracked staging memory are charged for. */
  ghost predicate LedgerValid(ctx: Context)
    reads ctx`active, ctx`cached, ctx`blocks, ctx.process
  {
    && WellFormed(ctx.blocks)
    && ctx.cached == IdleBytes(ctx.blocks)
    && InUseBytes(ctx.blocks) <= ctx.active
    && ctx.active + ctx.cached <= MAX_CPU_SHADOW_BYTES
    && ctx.active + ctx.cached + ctx.recordBytes <= ctx.process.globalBytes <= MAX_GLOBAL_CPU_ALLOCATION_BYTES
    && 0 < ctx.process.nextAddress
    && Distinct(ctx.blocks, ctx.process.nextAddress)
  }

  /** Tracked addresses differ from each other and from any still to come. */
  ghost predicate Distinct(blocks: seq<Block>, next: nat) {
    && (forall k :: 0 <= k < |blocks| ==> blocks[k].memory < next)
    && (forall j, k :: 0 <= j < k < |blocks| && blocks[k].memory != 0 ==> blocks[j].memory != blocks[k].memory)
  }

  /** What every other context and record holds of the shared budget. */
  ghost function Others(ctx: Context): int
    reads ctx`active, ctx`cached, ctx.process
  {
    ctx.process.globalBytes - ctx.active - ctx.cached
  }

  /** The table after the idle blocks are discarded. */
  function Trimmed(blocks: seq<Block>): (r: seq<Block>)
    ensures |r| == |blocks|
  {
    seq(|blocks|, k requires 0 <= k < |blocks| => if blocks[k].inUse then blocks[k] else NO_BLOCK)
  }

  lemma {:induction false} TrimmedBytes(blocks: seq<Block>, n: nat)
    requires n <= |blocks|
    ensures BlockBytes(Trimmed(blocks), n, true) == BlockBytes(blocks, n, true)
    ensures BlockBytes(Trimmed(blocks), n, false) == 0
  {
    if n > 0 {
      TrimmedBytes(blocks, n - 1);
    }
  }

  method GlobalReserve(p: Process, bytes: nat) returns (admitted: bool)
    modifies p`globalBytes
    ensures admitted <==> 0 < bytes && old(p.globalBytes) + bytes <= MAX_GLOBAL_CPU_ALLOCATION_BYTES
    ensures p.globalBytes == old(p.globalBytes) + if admitted then bytes else 0
  {
    admitted := false;
    if bytes == 0 || bytes > MAX_GLOBAL_CPU_ALLOCATION_BYTES {
      return;
    }
    if p.globalBytes <= MAX_GLOBAL_CPU_ALLOCATION_BYTES - bytes {
      p.globalBytes := p.globalBytes + bytes;
      admitted := true;
    }
  }

  method GlobalRelease(p: Process, bytes: nat)
    modifies p`globalBytes
    ensures p.globalBytes == AfterRelease(old(p.globalBytes), bytes)
  {
    if bytes == 0 {
      return;
    }
    if bytes <= p.globalBytes {
      p.globalBytes := p.globalBytes - bytes;
    }
  }

  method TrimStagingCache(ctx: Context)
    requires LedgerValid(ctx)
    modifies ctx`cached, ctx`blocks, ctx.process`globalBytes
    ensures LedgerValid(ctx)
    ensures ctx.blocks == Trimmed(old(ctx.blocks)) && ctx.cached == 0
    ensures Others(ctx) == old(Others(ctx))
  {
    ghost var was := ctx.blocks;
    var k := 0;
    while k < STAGING_CACHE_BLOCK_COUNT
      invariant k <= STAGING_CACHE_BLOCK_COUNT && |ctx.blocks| == STAGING_CACHE_BLOCK_COUNT
      invariant forall j :: 0 <= j < k ==> ctx.blocks[j] == Trimmed(was)[j]
      invariant forall j :: k <= j < |was| ==> ctx.blocks[j] == was[j]
      invariant ctx.cached == IdleBytes(ctx.blocks)
      invariant Others(ctx) == old(Others(ctx))
      invariant ctx.active + ctx.cached <= MAX_CPU_SHADOW_BYTES
      invariant ctx.active + ctx.cached + ctx.recordBytes <= ctx.process.globalBytes <= MAX_GLOBAL_CPU_ALLOCATION_BYTES
    {
      var block := ctx.blocks[k];
      if !(block.memory == 0 || block.inUse) {
        BlockBytesBound(ctx.blocks, |ctx.blocks|, false);
        BlockBytesUpdate(ctx.blocks, k, NO_BLOCK, |ctx.blocks|, false);
        var released := Min(block.capacity, ctx.cached);
        ctx.cached := ctx.cached - released;
        GlobalRelease(ctx.process, released);
        ctx.blocks := ctx.blocks[k := NO_BLOCK];
      }
      k := k + 1;
    }
    assert ctx.blocks == Trimmed(was);
    TrimmedBytes(was, |was|);
  }

  /** Does a request fit once the idle cache is given up? */
  ghost predicate FitsWithoutCache(active: nat, cached: nat, globalBytes: nat, bytes: nat) {
    && active + bytes <= MAX_CPU_SHADOW_BYTES
    && globalBytes - cached + bytes <= MAX_GLOBAL_CPU_ALLOCATION_BYTES
  }

  /** Does it fit beside the idle cache? */
  ghost predicate FitsBesideCache(active: nat, cached: nat, globalBytes: nat, bytes: nat) {
    && active + cached + bytes <= MAX_CPU_SHADOW_BYTES
    && globalBytes + bytes <= MAX_GLOBAL_CPU_ALLOCATION_BYTES
  }

  /** ringl_context_reserve_shadow_bytes: a request of at most 512 MiB succeeds
      exactly when it fits both budgets with the idle cache given up, and the
      cache is given up only when it does not fit beside it. */
  method ReserveShadowBytes(ctx: Context, bytes: nat) returns (ok: bool)
    requires LedgerValid(ctx)
    modifies ctx`active, ctx`cached, ctx`blocks, ctx.process`globalBytes
    ensures LedgerValid(ctx)
    ensures ok <==> (bytes == 0 || FitsWithoutCache(old(ctx.active), old(ctx.cached), old(ctx.process.globalBytes), bytes))
    ensures ctx.active == old(ctx.active) + if ok then bytes else 0
    ensures ctx.blocks == if bytes == 0 || bytes > MAX_CPU_SHADOW_BYTES ||
                             FitsBesideCache(old(ctx.active), old(ctx.cached), old(ctx.process.globalBytes), bytes)
                          then old(ctx.blocks) else Trimmed(old(ctx.blocks))
    ensures Others(ctx) == old(Others(ctx))
  {
    if bytes > MAX_CPU_SHADOW_BYTES {
      return false;
    }
    if bytes == 0 {
      return true;
    }
    TrimmedBytes(ctx.blocks, |ctx.blocks|);
    ghost var was := ctx.blocks;
    var attempt := 0;
    while attempt < 2
      invariant attempt <= 2
      invariant LedgerValid(ctx) && ctx.active == old(ctx.active) && Others(ctx) == old(Others(ctx))
      invariant attempt == 0 ==> ctx.blocks == was && ctx.cached == old(ctx.cached) && ctx.process.globalBytes == old(ctx.process.globalBytes)
      invariant attempt != 0 ==> ctx.blocks == Trimmed(was) && ctx.cached == 0
      invariant attempt != 0 ==>
        !FitsBesideCache(old(ctx.active), old(ctx.cached), old(ctx.process.globalBytes), bytes)
      invariant attempt == 2 ==>
        !FitsWithoutCache(old(ctx.active), old(ctx.cached), old(ctx.process.globalBytes), bytes)
    {
      var localRoom := ctx.active <= MAX_CPU_SHADOW_BYTES &&
                       ctx.cached <= MAX_CPU_SHADOW_BYTES - ctx.active &&
                       bytes <= MAX_CPU_SHADOW_BYTES - ctx.active - ctx.cached;
      if localRoom {
        var admitted := GlobalReserve(ctx.process, bytes);
        if admitted {
          ctx.active := ctx.active + bytes;
          return true;
        }
      }
      if attempt == 0 {
        TrimStagingCache(ctx);
      }
      attempt := attempt + 1;
    }
    return false;
  }

  method ReleaseShadowBytesLocal(ctx: Context, bytes: nat) returns (released: nat)
    modifies ctx`active
    ensures released == Min(old(ctx.active), bytes) && ctx.active == old(ctx.active) - released
  {
    if bytes >= ctx.active {
      released := ctx.active;
      ctx.active := 0;
    } else {
      released := bytes;
      ctx.active := ctx.active - bytes;
    }
  }

  /** ringl_context_release_shadow_bytes, for bytes that were reserved. */
  method ReleaseShadowBytes(ctx: Context, bytes: nat)
    requires LedgerValid(ctx)
    requires bytes <= ctx.active - InUseBytes(ctx.blocks)
    modifies ctx`active, ctx.process`globalBytes
    ensures LedgerValid(ctx)
    ensures ctx.active == old(ctx.active) - bytes && Others(ctx) == old(Others(ctx))
  {
    var released := ReleaseShadowBytesLocal(ctx, bytes);
    GlobalRelease(ctx.process, released);
  }

  /** ringl_context_alloc_temporary. */
  method AllocTemporary(ctx: Context, bytes: nat) returns (memory: nat)
    requires LedgerValid(ctx)
    modifies ctx`active, ctx`cached, ctx`blocks, ctx.process
    ensures LedgerValid(ctx)
    ensures ctx.active == old(ctx.active) + if memory != 0 then bytes else 0
    ensures InUseBytes(ctx.blocks) == old(InUseBytes(ctx.blocks))
    ensures ctx.blocks == old(ctx.blocks) || ctx.blocks == Trimmed(old(ctx.blocks))
    ensures Others(ctx) == old(Others(ctx))
    ensures bytes == 0 || !FitsWithoutCache(old(ctx.active), old(ctx.cached), old(ctx.process.globalBytes), bytes) ==> memory == 0
    ensures memory != 0 ==> memory == old(ctx.process.nextAddress) && ctx.process.nextAddress == memory + 1
    ensures memory == 0 ==> ctx.process.nextAddress == old(ctx.process.nextAddress)
    ensures forall k :: 0 <= k < |ctx.blocks| ==> ctx.blocks[k].memory < old(ctx.process.nextAddress)
  {
    TrimmedBytes(ctx.blocks, |ctx.blocks|);
    if bytes == 0 {
      return 0;
    }
    var ok := ReserveShadowBytes(ctx, bytes);
    if !ok {
      return 0;
    }
    memory := ctx.process.Malloc();
    if memory == 0 {
      ReleaseShadowBytes(ctx, bytes);
    }
  }

  /** ringl_context_free_temporary. */
  method FreeTemporary(ctx: Context, memory: nat, bytes: nat)
    requires LedgerValid(ctx)
    requires memory != 0 ==> bytes <= ctx.active - InUseBytes(ctx.blocks)
    modifies ctx`active, ctx.process`globalBytes
    ensures LedgerValid(ctx)
    ensures ctx.active == old(ctx.active) - if memory != 0 then bytes else 0
    ensures Others(ctx) == old(Others(ctx))
  {
    if memory == 0 {
      return;
    }
    ReleaseShadowBytes(ctx, bytes);
  }

  /** The slot that tracks an address, or 4. */
  function Tracked(blocks: seq<Block>, memory: nat, k: nat): (r: nat)
    requires k <= |blocks|
    ensures k <= r <= |blocks|
    ensures r < |blocks| ==> blocks[r].memory == memory
    ensures forall j :: k <= j < r ==> blocks[j].memory != memory
    decreases |blocks| - k
  {
    if k == |blocks| || blocks[k].memory == memory then k else Tracked(blocks, memory, k + 1)
  }

  /** The bytes a staging address is charged for: its block's capacity if the
      table tracks it, else what was asked for. */
  function StagingCharge(blocks: seq<Block>, memory: nat, bytes: nat): nat {
    var k := Tracked(blocks, memory, 0);
    if memory == 0 then 0 else if k < |blocks| then blocks[k].capacity else bytes
  }

  /** Charges outside the staging table. */
  ghost function Untracked(ctx: Context): int
    reads ctx`active, ctx`blocks
  {
    ctx.active - InUseBytes(ctx.blocks)
  }

  method ScanIdle(blocks: seq<Block>, bytes: nat) returns (k: nat)
    requires |blocks| == STAGING_CACHE_BLOCK_COUNT
    ensures k == FirstIdle(blocks, bytes, 0)
  {
    k := 0;
    while k < STAGING_CACHE_BLOCK_COUNT
      invariant k <= STAGING_CACHE_BLOCK_COUNT && FirstIdle(blocks, bytes, k) == FirstIdle(blocks, bytes, 0)
    {
      if blocks[k].memory != 0 && !blocks[k].inUse && blocks[k].capacity >= bytes {
        return;
      }
      k := k + 1;
    }
  }

  method ScanEmpty(blocks: seq<Block>) returns (k: nat)
    requires |blocks| == STAGING_CACHE_BLOCK_COUNT
    ensures k == FirstEmpty(blocks, 0)
  {
    k := 0;
    while k < STAGING_CACHE_BLOCK_COUNT
      invariant k <= STAGING_CACHE_BLOCK_COUNT && FirstEmpty(blocks, k) == FirstEmpty(blocks, 0)
    {
      if blocks[k].memory == 0 {
        return;
      }
      k := k + 1;
    }
  }

  method ScanTracked(blocks: seq<Block>, memory: nat) returns (k: nat)
    requires |blocks| == STAGING_CACHE_BLOCK_COUNT
    ensures k == Tracked(blocks, memory, 0)
  {
    k := 0;
    while k < STAGING_CACHE_BLOCK_COUNT
      invariant k <= STAGING_CACHE_BLOCK_COUNT && Tracked(blocks, memory, k) == Tracked(blocks, memory, 0)
    {
      if blocks[k].memory == memory {
        return;
      }
      k := k + 1;
    }
  }

  lemma TrackedIs(blocks: seq<Block>, k: nat, next: nat)
    requires k < |blocks| && blocks[k].memory != 0 && Distinct(blocks, next)
    ensures Tracked(blocks, blocks[k].memory, 0) == k
  {
    var r := Tracked(blocks, blocks[k].memory, 0);
    assert r <= k;
  }

  ghost predicate KeepsInUse(before: seq<Block>, after: seq<Block>) {
    |after| == |before| && forall k :: 0 <= k < |before| && before[k].inUse ==> after[k] == before[k]
  }

  /** What calls made while staging memory is held leave of it: the blocks in use
      stay, and the table gains no address but fresh ones. */
  ghost predicate StagingFrame(before: seq<Block>, next: nat, after: seq<Block>) {
    && KeepsInUse(before, after)
    && forall k :: 0 <= k < |after| ==>
         after[k].memory == 0 || after[k].memory == before[k].memory || next <= after[k].memory
  }

  ghost predicate InUse(blocks: seq<Block>, memory: nat) {
    var k := Tracked(blocks, memory, 0);
    k < |blocks| ==> blocks[k].inUse
  }

  /** So memory that is held is charged the same afterwards. */
  lemma HoldSurvives(before: seq<Block>, next: nat, after: seq<Block>, next': nat, memory: nat)
    requires StagingFrame(before, next, after) && Distinct(after, next')
    requires 0 < memory < next && InUse(before, memory)
    ensures Tracked(after, memory, 0) == Tracked(before, memory, 0) && InUse(after, memory)
    ensures forall bytes :: StagingCharge(after, memory, bytes) == StagingCharge(before, memory, bytes)
  {
    var k := Tracked(before, memory, 0);
    if k < |before| {
      assert after[k] == before[k];
      TrackedIs(after, k, next');
    } else {
      assert forall j :: 0 <= j < |after| ==> after[j].memory != memory;
    }
  }

  /** An allocation, calls that keep it, and its release leave the table as calls
      that allocate nothing do. */
  lemma BracketKeepsFrame(b0: seq<Block>, n0: nat, b1: seq<Block>, n1: nat, b2: seq<Block>, b3: seq<Block>, k: nat)
    requires StagingFrame(b0, n0, b1) && n0 <= n1 && StagingFrame(b1, n1, b2)
    requires k < |b2| ==> b3 == b2[k := b2[k].(inUse := false)] && !b0[k].inUse
    requires k >= |b2| ==> b3 == b2
    ensures StagingFrame(b0, n0, b3)
  {
  }

  /** An idle block moves from the cached to the active bucket. */
  method ActivateBlock(ctx: Context, k: nat) returns (memory: nat)
    requires LedgerValid(ctx)
    requires k < STAGING_CACHE_BLOCK_COUNT && ctx.blocks[k].memory != 0 && !ctx.blocks[k].inUse
    modifies ctx`active, ctx`cached, ctx`blocks
    ensures LedgerValid(ctx) && Others(ctx) == old(Others(ctx))
    ensures memory == old(ctx.blocks)[k].memory
    ensures ctx.blocks == old(ctx.blocks)[k := old(ctx.blocks)[k].(inUse := true)]
    ensures ctx.active == old(ctx.active) + ctx.blocks[k].capacity
    ensures Untracked(ctx) == old(Untracked(ctx))
  {
    var block := ctx.blocks[k].(inUse := true);
    BlockBytesBound(ctx.blocks, |ctx.blocks|, false);
    BlockBytesUpdate(ctx.blocks, k, block, |ctx.blocks|, true);
    BlockBytesUpdate(ctx.blocks, k, block, |ctx.blocks|, false);
    ctx.cached := ctx.cached - block.capacity;
    ctx.blocks := ctx.blocks[k := block];
    ctx.active := ctx.active + block.capacity;
    return block.memory;
  }

  /** Freshly charged memory takes an empty slot. */
  method TrackBlock(ctx: Context, k: nat, memory: nat, bytes: nat)
    requires LedgerValid(ctx)
    requires k < STAGING_CACHE_BLOCK_COUNT && ctx.blocks[k].memory == 0
    requires bytes <= STAGING_CACHE_MAX_BLOCK_BYTES && bytes <= Untracked(ctx)
    requires 0 < memory < ctx.process.nextAddress
    requires forall j :: 0 <= j < |ctx.blocks| ==> ctx.blocks[j].memory != memory
    modifies ctx`blocks
    ensures LedgerValid(ctx)
    ensures ctx.blocks == old(ctx.blocks)[k := Block(memory, bytes, true)]
    ensures Untracked(ctx) == old(Untracked(ctx)) - bytes
  {
    var block := Block(memory, bytes, true);
    BlockBytesUpdate(ctx.blocks, k, block, |ctx.blocks|, true);
    BlockBytesUpdate(ctx.blocks, k, block, |ctx.blocks|, false);
    ctx.blocks := ctx.blocks[k := block];
  }

  /** The end of ringl_context_alloc_staging: a block that is not too large takes
      the first empty slot; otherwise it stays untracked. */
  method TrackIfRoom(ctx: Context, memory: nat, bytes: nat)
    requires LedgerValid(ctx) && 0 < bytes <= Untracked(ctx)
    requires 0 < memory < ctx.process.nextAddress
    requires forall j :: 0 <= j < |ctx.blocks| ==> ctx.blocks[j].memory != memory
    modifies ctx`blocks
    ensures LedgerValid(ctx) && KeepsInUse(old(ctx.blocks), ctx.blocks)
    ensures forall k :: 0 <= k < |ctx.blocks| ==> ctx.blocks[k].memory == old(ctx.blocks)[k].memory || ctx.blocks[k].memory == memory
    ensures StagingCharge(ctx.blocks, memory, bytes) == bytes
    ensures var k := Tracked(ctx.blocks, memory, 0);
            if k < |ctx.blocks|
            then ctx.blocks[k] == Block(memory, bytes, true) && !old(ctx.blocks)[k].inUse && Untracked(ctx) == old(Untracked(ctx)) - bytes
            else ctx.blocks == old(ctx.blocks)
  {
    if bytes <= STAGING_CACHE_MAX_BLOCK_BYTES {
      var empty := ScanEmpty(ctx.blocks);
      if empty < STAGING_CACHE_BLOCK_COUNT {
        TrackBlock(ctx, empty, memory, bytes);
        TrackedIs(ctx.blocks, empty, ctx.process.nextAddress);
      }
    }
  }

  /** The path of a cache miss: the same reserve, malloc and roll back as for
      temporary memory, and then a slot if there is one. */
  method AllocFresh(ctx: Context, bytes: nat) returns (memory: nat)
    requires LedgerValid(ctx) && 0 < bytes
    modifies ctx`active, ctx`cached, ctx`blocks, ctx.process
    ensures LedgerValid(ctx) && Others(ctx) == old(Others(ctx))
    ensures ctx.active == old(ctx.active) + if memory != 0 then bytes else 0
    ensures memory != 0 ==> StagingCharge(ctx.blocks, memory, bytes) == bytes
    ensures StagingFrame(old(ctx.blocks), old(ctx.process.nextAddress), ctx.blocks)
    ensures memory < ctx.process.nextAddress
    ensures memory != 0 ==>
              && memory == old(ctx.process.nextAddress)
              && var k := Tracked(ctx.blocks, memory, 0);
                 if k < |ctx.blocks|
                 then ctx.blocks[k] == Block(memory, bytes, true) && !old(ctx.blocks)[k].inUse && Untracked(ctx) == old(Untracked(ctx))
                 else Untracked(ctx) == old(Untracked(ctx)) + bytes
    ensures memory == 0 ==> Untracked(ctx) == old(Untracked(ctx))
    ensures old(ctx.process.nextAddress) <= ctx.process.nextAddress
  {
    hide BlockBytes, WellFormed, Trimmed, StagingFrame;
    memory := AllocTemporary(ctx, bytes);
    ghost var mid := ctx.blocks;
    if memory != 0 {
      TrackIfRoom(ctx, memory, bytes);
    }
    MissFrame(old(ctx.blocks), mid, ctx.blocks, old(ctx.process.nextAddress), memory);
  }

  /** A miss may trim the idle blocks and then track its new memory in one slot. */
  lemma MissFrame(before: seq<Block>, mid: seq<Block>, after: seq<Block>, next: nat, memory: nat)
    requires mid == before || mid == Trimmed(before)
    requires KeepsInUse(mid, after) && (memory == 0 || memory == next)
    requires forall k :: 0 <= k < |after| ==> after[k].memory == mid[k].memory || after[k].memory == memory
    ensures StagingFrame(before, next, after)
    ensures forall k :: 0 <= k < |after| && !mid[k].inUse ==> !before[k].inUse
  {
  }

  /** ringl_context_alloc_staging: reuse the first idle block that is large
      enough, else reserve, allocate, and track the memory if a slot is free. */
  method AllocStaging(ctx: Context, bytes: nat) returns (memory: nat)
    requires LedgerValid(ctx)
    modifies ctx`active, ctx`cached, ctx`blocks, ctx.process
    ensures LedgerValid(ctx) && Others(ctx) == old(Others(ctx))
    ensures ctx.active == old(ctx.active) + StagingCharge(ctx.blocks, memory, bytes)
    ensures StagingFrame(old(ctx.blocks), old(ctx.process.nextAddress), ctx.blocks)
    ensures bytes == 0 ==> memory == 0
    ensures memory < ctx.process.nextAddress
    ensures memory != 0 ==>
              var k := Tracked(ctx.blocks, memory, 0);
              if k < |ctx.blocks|
              then ctx.blocks[k].inUse && !old(ctx.blocks)[k].inUse && bytes <= ctx.blocks[k].capacity
              else memory == old(ctx.process.nextAddress) && Untracked(ctx) == old(Untracked(ctx)) + bytes
    ensures memory != 0 && Tracked(ctx.blocks, memory, 0) < |ctx.blocks| ==> Untracked(ctx) == old(Untracked(ctx))
    ensures memory == 0 ==> Untracked(ctx) == old(Untracked(ctx))
    ensures old(ctx.process.nextAddress) <= ctx.process.nextAddress
    ensures 0 < bytes && FirstIdle(old(ctx.blocks), bytes, 0) < STAGING_CACHE_BLOCK_COUNT ==>
              memory == old(ctx.blocks)[FirstIdle(old(ctx.blocks), bytes, 0)].memory
  {
    if bytes == 0 {
      return 0;
    }
    var hit := ScanIdle(ctx.blocks, bytes);
    if hit < STAGING_CACHE_BLOCK_COUNT {
      memory := ActivateBlock(ctx, hit);
      TrackedIs(ctx.blocks, hit, ctx.process.nextAddress);
      return;
    }
    memory := AllocFresh(ctx, bytes);
  }

  /** ringl_context_free_staging: a tracked block always goes back to the cache
      without trimming anything; other memory is released. */
  method FreeStaging(ctx: Context, memory: nat, bytes: nat)
    requires LedgerValid(ctx)
    requires memory != 0 && Tracked(ctx.blocks, memory, 0) == |ctx.blocks| ==> bytes <= Untracked(ctx)
    modifies ctx`active, ctx`cached, ctx`blocks, ctx.process`globalBytes
    ensures LedgerValid(ctx) && Others(ctx) == old(Others(ctx))
    ensures var k := Tracked(old(ctx.blocks), memory, 0);
            if memory != 0 && k < STAGING_CACHE_BLOCK_COUNT then
              && ctx.blocks == old(ctx.blocks)[k := old(ctx.blocks)[k].(inUse := false)]
              && Untracked(ctx) == old(Untracked(ctx))
              && ctx.active == old(ctx.active) - if old(ctx.blocks)[k].inUse then old(ctx.blocks)[k].capacity else 0
            else
              && ctx.blocks == old(ctx.blocks) && ctx.cached == old(ctx.cached)
              && ctx.active == old(ctx.active) - if memory != 0 then bytes else 0
  {
    if memory == 0 {
      return;
    }
    var k := ScanTracked(ctx.blocks, memory);
    if k < STAGING_CACHE_BLOCK_COUNT {
      var block := ctx.blocks[k];
      if !block.inUse {
        return;
      }
      if block.capacity <= STAGING_CACHE_MAX_BLOCK_BYTES {
        BlockBytesBound(ctx.blocks, |ctx.blocks|, true);
        IdleLeavesRoom(ctx.blocks, k, |ctx.blocks|);
        if ctx.cached > STAGING_CACHE_MAX_BYTES || block.capacity > STAGING_CACHE_MAX_BYTES - ctx.cached {
          assert false; // the trim is never needed
        }
        BlockBytesUpdate(ctx.blocks, k, block.(inUse := false), |ctx.blocks|, true);
        BlockBytesUpdate(ctx.blocks, k, block.(inUse := false), |ctx.blocks|, false);
        var released := ReleaseShadowBytesLocal(ctx, block.capacity);
        ctx.cached := ctx.cached + block.capacity;
        ctx.blocks := ctx.blocks[k := block.(inUse := false)];
        return;
      }
      assert false; // tracked blocks never exceed the block limit
    } else {
      ReleaseShadowBytes(ctx, bytes);
    }
  }
}
