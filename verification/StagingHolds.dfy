/** Staging memory taken and given back around other calls: the pattern of
    src/context/sync.c and src/objects/texture.c. */
module StagingHolds {
  import opened Limits
  import opened StagingBlocks
  import opened ContextState
  import opened ContextLedger

  /** One context's ledger, as a value. */
  datatype Ledger = Ledger(active: int, untracked: int, others: int, blocks: seq<Block>, next: nat)

  ghost function LedgerOf(ctx: Context): Ledger
    reads ctx`active, ctx`cached, ctx`blocks, ctx.process
  {
    Ledger(ctx.active, Untracked(ctx), Others(ctx), ctx.blocks, ctx.process.nextAddress)
  }

  /** What calls that give back all they take leave. */
  ghost predicate Settled(l: Ledger, l': Ledger) {
    && l'.active == l.active && l'.untracked == l.untracked && l'.others == l.others && l.next <= l'.next
    && StagingFrame(l.blocks, l.next, l'.blocks)
  }

  /** `taken` is the ledger after `start` gave out `memory`. */
  ghost predicate Took(start: Ledger, taken: Ledger, memory: nat, bytes: nat) {
    && 0 <= start.untracked && 0 < memory < taken.next && start.next <= taken.next
    && StagingFrame(start.blocks, start.next, taken.blocks)
    && taken.others == start.others
    && taken.active == start.active + StagingCharge(taken.blocks, memory, bytes)
    && var k := Tracked(taken.blocks, memory, 0);
       if k < |taken.blocks|
       then taken.blocks[k].inUse && !start.blocks[k].inUse && taken.untracked == start.untracked
       else taken.untracked == start.untracked + bytes
  }

  method Take(ctx: Context, bytes: nat) returns (memory: nat)
    requires LedgerValid(ctx)
    modifies ctx`active, ctx`cached, ctx`blocks, ctx.process
    ensures LedgerValid(ctx)
    ensures memory != 0 ==> Took(old(LedgerOf(ctx)), LedgerOf(ctx), memory, bytes)
    ensures memory == 0 ==> Settled(old(LedgerOf(ctx)), LedgerOf(ctx))
    ensures bytes == 0 ==> memory == 0
  {
    memory := AllocStaging(ctx, bytes);
  }

  /** Whatever happened in between, giving the memory back settles the ledger. */
  method GiveBack(ctx: Context, memory: nat, bytes: nat, ghost start: Ledger, ghost taken: Ledger)
    requires LedgerValid(ctx) && Took(start, taken, memory, bytes)
    requires Settled(taken, LedgerOf(ctx))
    modifies ctx`active, ctx`cached, ctx`blocks, ctx.process
    ensures LedgerValid(ctx) && Settled(start, LedgerOf(ctx))
  {
    ghost var blocks := ctx.blocks;
    HoldSurvives(taken.blocks, taken.next, ctx.blocks, ctx.process.nextAddress, memory);
    FreeStaging(ctx, memory, bytes);
    BracketKeepsFrame(start.blocks, start.next, taken.blocks, taken.next, blocks, ctx.blocks, Tracked(blocks, memory, 0));
  }

  lemma SettledIsReflexive(l: Ledger)
    requires forall k :: 0 <= k < |l.blocks| ==> l.blocks[k].memory < l.next
    ensures Settled(l, l)
  {
  }
}
