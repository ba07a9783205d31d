/** The staging-cache slots of a context and the byte totals over them. */
module StagingBlocks {
  import opened Limits

  /** A slot: `memory == 0` is the NULL pointer of an empty one. */
  datatype Block = Block(memory: nat, capacity: nat, inUse: bool)

  const NO_BLOCK := Block(0, 0, false)

  /** What the table keeps: empty slots are all zero, and no tracked block is
      larger than 1 MiB. */
  ghost predicate WellFormed(blocks: seq<Block>) {
    && |blocks| == STAGING_CACHE_BLOCK_COUNT
    && forall k :: 0 <= k < |blocks| ==>
         && blocks[k].capacity <= STAGING_CACHE_MAX_BLOCK_BYTES
         && (blocks[k].memory == 0 ==> blocks[k] == NO_BLOCK)
  }

  function Min(a: nat, b: nat): nat { if a <= b then a else b }

  /** The first block accepted by the scan of ringl_context_alloc_staging, or 4. */
  function FirstIdle(blocks: seq<Block>, bytes: nat, k: nat): (r: nat)
    requires |blocks| == STAGING_CACHE_BLOCK_COUNT && k <= |blocks|
    ensures k <= r <= |blocks|
    ensures r < |blocks| ==> blocks[r].memory != 0 && !blocks[r].inUse && bytes <= blocks[r].capacity
    decreases |blocks| - k
  {
    if k == |blocks| || (blocks[k].memory != 0 && !blocks[k].inUse && bytes <= blocks[k].capacity) then k
    else FirstIdle(blocks, bytes, k + 1)
  }

  /** The first empty slot, or 4. */
  function FirstEmpty(blocks: seq<Block>, k: nat): (r: nat)
    requires |blocks| == STAGING_CACHE_BLOCK_COUNT && k <= |blocks|
    ensures k <= r <= |blocks|
    ensures r < |blocks| ==> blocks[r].memory == 0
    decreases |blocks| - k
  {
    if k == |blocks| || blocks[k].memory == 0 then k else FirstEmpty(blocks, k + 1)
  }

  function BlockBytes(blocks: seq<Block>, k: nat, inUse: bool): nat
    requires k <= |blocks|
  {
    if k == 0 then 0
    else BlockBytes(blocks, k - 1, inUse) + if blocks[k - 1].inUse == inUse then blocks[k - 1].capacity else 0
  }

  function InUseBytes(blocks: seq<Block>): nat { BlockBytes(blocks, |blocks|, true) }

  function IdleBytes(blocks: seq<Block>): nat { BlockBytes(blocks, |blocks|, false) }

  /** The shared counter after a release: a mismatch would keep the charge in place. */
  function AfterRelease(global: nat, bytes: nat): nat { if bytes <= global then global - bytes else global }

  lemma {:induction false} BlockBytesUpdate(blocks: seq<Block>, k: nat, b: Block, n: nat, inUse: bool)
    requires k < |blocks| && n <= |blocks|
    ensures BlockBytes(blocks[k := b], n, inUse)
         == BlockBytes(blocks, n, inUse)
            + (if k < n && b.inUse == inUse then b.capacity else 0)
            - (if k < n && blocks[k].inUse == inUse then blocks[k].capacity else 0)
  {
    if n > 0 {
      BlockBytesUpdate(blocks, k, b, n - 1, inUse);
    }
  }

  lemma {:induction false} BlockBytesBound(blocks: seq<Block>, n: nat, inUse: bool)
    requires n <= |blocks|
    requires forall k :: 0 <= k < |blocks| ==> blocks[k].capacity <= STAGING_CACHE_MAX_BLOCK_BYTES
    ensures BlockBytes(blocks, n, inUse) <= n * STAGING_CACHE_MAX_BLOCK_BYTES
    ensures forall k :: 0 <= k < n && blocks[k].inUse == inUse ==> blocks[k].capacity <= BlockBytes(blocks, n, inUse)
  {
    if n > 0 {
      BlockBytesBound(blocks, n - 1, inUse);
    }
  }

  lemma {:induction false} BlockBytesEmpty(blocks: seq<Block>, n: nat, inUse: bool)
    requires n <= |blocks|
    requires forall k :: 0 <= k < n ==> blocks[k].capacity == 0 || blocks[k].inUse != inUse
    ensures BlockBytes(blocks, n, inUse) == 0
  {
    if n > 0 {
      BlockBytesEmpty(blocks, n - 1, inUse);
    }
  }

  /** One block in use leaves at most three idle ones. */
  lemma {:induction false} IdleLeavesRoom(blocks: seq<Block>, k: nat, n: nat)
    requires k < n <= |blocks| && blocks[k].inUse
    requires forall j :: 0 <= j < |blocks| ==> blocks[j].capacity <= STAGING_CACHE_MAX_BLOCK_BYTES
    ensures BlockBytes(blocks, n, false) <= (n - 1) * STAGING_CACHE_MAX_BLOCK_BYTES
  {
    if k < n - 1 {
      IdleLeavesRoom(blocks, k, n - 1);
    } else {
      BlockBytesBound(blocks, n - 1, false);
    }
  }
}
