# A verified model of RinGL

RinGL is an OpenGL ES state and translation layer in C. This project models the
four parts of it that keep the most delicate state and proves properties of them
for every input, every run and every failure of an allocation or of the backend.

**The CPU memory ledger.** A context may hold 512 MiB, all contexts together
1 GiB. Bytes are reserved before `malloc` and released after `free`; freed
staging blocks move to a small cache that still counts. `LedgerProtocol` is the
concurrent protocol: any number of contexts, each step one locked region, one
`malloc`, one `free` or one update of a context's own counters, in any
interleaving. `ContextLedger` is the same code call by call, and `SoloLedger`
shows that the protocol run by one context alone computes what `ContextLedger`
specifies. Buffers, textures and temporaries are clients of the ledger.
`TraceLog` is the 256-entry trace ring of the same file.

**Whole runs.** `Session` states one invariant for a whole context, `Session`,
`NamingCalls`, `Realization` and `ColorTargets` show that every modelled call keeps it,
and `Runs` draws the conclusion: from creation to destruction, for any sequence of those calls with any
arguments and any failures, every reference resolves, every buffer's GPU copy is its
shadow, and what the context is charged is what it owns and what its deletions have
lost, byte for byte. At the end the backend is as it was found, and so is the shared
counter if and only if no cube map was deleted, or left over, with bytes in a face.

**Names, vertex arrays and references.** `ObjectTable` has the generation-tagged
names, `VertexArrays` the working copy and the saved copies that refine a map
from names to records, `References` and `Framebuffers` the invariant that every
name a binding, a vertex array or an attachment holds resolves to an object of
the right type, and `Buffers` the shadow bytes and their copies on the GPU.

**Readback.** `Readback` models the clipped, aligned read of a colour target
against a pointwise specification, with `ColorConversion`, `PackedColor`,
`HalfFloat`, `Srgb` and `Rows` for its parts.

**Textures.** Levels and sub-images (`TexImages`, `TexUpload`,
`TextureFormats`), box filtering and mipmap chains (`MipFilter`, `Mipmaps`,
`CubeMipmaps`), block decoding (`BlockDecoding`, `ImageDecoding`,
`LinearImages`, `CompressedImages`), the window that lends a cube face to the 2D
operations (`CubeFaces`, `CubeImages`), copies (`CopyImages`) and storage
(`TextureStorage`, `TextureDeletion`, `CubeLoss`). `AttachHistory` says what the
colour points of a framebuffer hold after any history of calls.

## How the model is built

- The context is a class (`ContextState.Context`) whose fields the methods
  update in place, as the C functions do; arrays embedded in C structs are
  fields of type `seq`. Bytes the caller or a loop writes into are Dafny arrays.
- `malloc`, image and buffer creation, uploads, readbacks, command submission and
  waits may fail at every call. An address or a handle that is returned has not
  been returned before. Whatever a failing upload was writing, and whatever a
  failing readback was filling, is left arbitrary.
- Each locked region of the global counter is one atomic step.
- Conditions that need a configured device (a supported format, a nonzero size
  limit) are parameters: `sizeMax` is SIZE_MAX of the host, `ready` says that the
  sync interface is usable.
- sRGB, unorm and alpha values are exact reals. Where a float result is stored,
  its bytes come from a parameter that stands for the host's rounding: `rounded` for
  uploads and copies, `tones` for the linear image of an sRGB compressed format.
- The descriptor of a new context and the pointers of a trace read are tested before
  anything else; `described` and `usable` say that they pass.
- Multi-byte words in memory are little-endian.

## Where the code departs from its documentation

- README.md:44-47 of the repository says that deletion and teardown release the
  exact bytes a texture owns. Neither walks the six cube faces
  (src/objects/texture.c:2121-2132, 4571-4588), so the property is false for cube
  maps. `TextureDeletion.DeleteTexture` states exactly what stays charged,
  `FacesOwnNothing` says when that is nothing. `CubeLoss.DefineAndDelete` makes the
  four calls that show it (generate, bind, define one face, delete), and
  `CubeLoss.OneTexelCube` is the smallest texture that loses bytes. `Runs.Run` and
  `Runs.Life` give the exact consequence for whole runs: the charge nobody owns is the
  face storage of the deleted textures, and a life gives the shared counter back if
  and only if none of them, and none left at the end, held a byte in a face.
- A decoded compressed image has tight rows but is uploaded under the unpack
  alignment in force (src/objects/texture.c:4193-4200, 3059-3062).
  `TexUpload.TightRowsAccepted` gives the exact condition under which that upload
  is accepted, `CompressedImages.UnalignedIsRefused` the error otherwise.
- Attaching a renderbuffer to a colour slot keeps the array layer a cube face left
  there (src/objects/framebuffer.c:2229-2233), and the duplicate check compares
  it. Over any history of calls the check sees every duplicate if and only if no
  renderbuffer sits at two points whose last cube faces, since the points were last
  emptied, differ (`AttachHistory.DuplicatesReportedExactly`);
  `AttachHistory.StaleLayerHidesDuplicate` makes three accepted calls after which it
  misses one.
- Attaching a texture to a colour point destroys the image made for sampling it, the
  first time, and does so before the texture's target is compared
  (src/objects/framebuffer.c:805-819, src/objects/texture.c:4590-4609): that one
  rejected call is not free of change. `Framebuffers.FramebufferTexture2D` says
  exactly when.
- A base face in an sRGB compressed format is compared with the other faces as if
  they carried the sRGB flag, which no compressed definition sets
  (src/objects/texture.c:4119-4131). `CubeImages.SrgbFaceStandsAlone`: it is accepted
  if and only if no other face is defined. `CubeImages.SecondSrgbFace` makes the two
  calls of which the second is refused; that such a face stands alone is part of the
  invariant every call of a run keeps, so no cube map of such a format is ever complete
  (`Session.SrgbCubesStayIncomplete`).
- RGB DXT1 always uses the four-colour palette (src/objects/texture.c:3820). The
  model follows the code.
- A name is dead after its object is deleted only until its slot has been released
  65535 times; `ObjectTable.ReuseExactly` is the exact condition.
- Between entering and leaving the window on a cube face, the face still holds the
  storage pointers it has lent. The model empties it; `CubeFaces.StaleFaceIsUnread`
  shows that leaving does not depend on what the face holds meanwhile. Its one reader
  while the window is open, a copy into a face of the cube map it reads from, sees the
  faces as they were (`CubeFaces.OpenWindowShowsFaces`).

## Model

| member | source | states |
|---|---|---|
| `LedgerProtocol.CtxStepKeepsInv` | src/context/context.c:478-721 | every step of a call of any context (reservation, allocation, trimming, block moves, release, teardown), taken while the other contexts stand anywhere, keeps the shared counter equal to what all contexts hold or have in flight |
| `LedgerProtocol.NextKeepsInv` | src/context/context.c:24-51 | so does every step of the whole system, creation of a context included |
| `LedgerProtocol.RunKeepsInv` | src/context/context.c:24-51 | the invariant holds at every moment of every interleaved run |
| `LedgerProtocol.CtxBounds` | src/context/context.c:353-407 | one context's live bytes and its charges never exceed its share of the counter, all three agree when no call is in flight, and a destroyed context's remaining charge is exactly the client memory it still has |
| `LedgerProtocol.TotalBounds` | src/context/context.c:353-407 | the same summed over any number of contexts |
| `LedgerProtocol.BudgetHoldsInEveryRun` | src/context/context.c:24-51 | in every state of every run: live heap bytes and charges are at most the shared counter, which is at most 1 GiB; every context is within 512 MiB; and all three sums are equal when no call is in flight |
| `LedgerProtocol.TeardownReturnsTheBudget` | src/context/context.c:353-407 | when all contexts are destroyed and their clients freed everything, the shared counter is zero, whatever interleaving led there |
| `LedgerProtocol.FallbacksAreUnreachable` | src/context/context.c:681-721 | in every reachable state a block that is returned has room in the cache, and no context ever stands at a step of the trim or of the free that staging free has for want of room; cached bytes equal the idle capacities and stay within 4 MiB; no release ever exceeds its counter |
| `SoloLedger.SoloReservation` | src/context/context.c:557-582 | with no other context running, the protocol admits a request exactly when it fits both budgets with the idle cache given up, and gives the cache up only when the request does not fit beside it: the contract of `ReserveShadowBytes` |
| `SoloLedger.WalkTrims` | src/context/context.c:478-497 | the step-by-step walk over the blocks discards exactly the idle ones and takes their bytes off both counters |
| `SoloLedger.SoloReuse` | src/context/context.c:633-657 | reusing an idle block step by step moves its capacity from the cached to the active counter and leaves the shared one: the contract of `ActivateBlock` |
| `SoloLedger.SoloReturn` | src/context/context.c:681-721 | returning a block step by step moves it back, and trims and frees nothing: the contract of `FreeStaging` |
| `SoloLedger.SoloGrant` | src/context/context.c:659-678 | an admitted request is charged and backed by memory, in a slot exactly if it is staged, small enough and one is empty; a failed malloc gives everything back: the contract of `AllocFresh` |
| `ContextLedger.GlobalReserve` | src/context/context.c:24-38 | a reservation is admitted exactly when it is nonzero and stays within 1 GiB, and charges nothing otherwise |
| `ContextLedger.GlobalRelease` | src/context/context.c:40-51 | a release larger than the counter leaves it alone |
| `ContextLedger.TrimStagingCache` | src/context/context.c:478-497 | only idle blocks go, no cached byte remains, and no other context's share changes |
| `ContextLedger.ReserveShadowBytes` | src/context/context.c:557-582 | success exactly when the request fits both budgets without the idle cache; the blocks are touched only when it does not fit beside them |
| `ContextLedger.ReleaseShadowBytesLocal` | src/context/context.c:584-597 | never releases more than is active, and says how much it did |
| `ContextLedger.ReleaseShadowBytes` | src/context/context.c:599-609 | bytes that were reserved come off both counters and off no other context |
| `ContextLedger.AllocTemporary` | src/context/context.c:611-622 | memory comes with exactly its charge, failure with none, and a request outside the budgets always fails |
| `ContextLedger.FreeTemporary` | src/context/context.c:624-631 | gives back exactly that charge |
| `ContextLedger.AllocStaging` | src/context/context.c:633-679 | reuses the first idle block that is large enough; the active charge grows by the block's capacity or, for untracked memory, by the request; no block in use is disturbed |
| `ContextLedger.AllocFresh` | src/context/context.c:659-678 | new memory is charged before it exists and tracked only in an empty slot |
| `ContextLedger.FreeStaging` | src/context/context.c:681-721 | tracked memory becomes an idle block with its whole capacity cached, untracked memory gives back its bytes; freeing NULL does nothing |
| `ContextLedger.HoldSurvives` | src/context/context.c:633-721 | memory one caller holds is charged the same after any allocations of others |
| `ContextLedger.BracketKeepsFrame` | src/context/context.c:633-721 | taking and giving back a block disturbs no block in use |
| `StagingBlocks.IdleLeavesRoom` | src/context/context.c:681-721 | while one of the four blocks is in use, the idle ones hold at most 3 MiB |
| `StagingHolds.Take` | src/context/context.c:633-679 | what a caller that holds staging memory may rely on while others run |
| `StagingHolds.GiveBack` | src/context/context.c:681-721 | a balanced bracket of staging calls leaves the active charge as it found it, whatever balanced work happened inside |
| `ContextState.Process.Malloc` | src/context/context.c:661-665 | the allocation oracle: NULL, or memory that was never handed out |
| `ContextState.Context.RecordError` | src/context/context.c:499-507 | the first error stays until it is read |
| `ContextState.Context.constructor` | src/context/context.c:253-351 | the state a new context starts in |
| `ContextLifetime.Create` | src/context/context.c:253-351 | a new context satisfies every invariant of this project, holds only its record's charge and refers to nothing; a refused descriptor, an exhausted budget and a failed allocation have their results and leave the counter as it was |
| `ContextLifetime.FreshIsValid` | src/context/context.c:253-351 | the zeroed record owns no bytes and no image |
| `ContextLifetime.FreshHoldsNothing` | src/context/context.c:253-351 | no reference of the zeroed record names anything |
| `ContextLifetime.OnlyImagesGone` | src/objects/texture.c:4571-4588 | teardown destroys the images of textures and no other backend object |
| `ContextLifetime.ReleaseBlocks` | src/context/context.c:353-407 | teardown gives up every staging block, in use or not, and with each exactly its charge |
| `ContextLifetime.Destroy` | src/context/context.c:353-407 | afterwards the shared counter holds the other contexts' bytes, the charge nobody owns, and the cube-face bytes that are not walked, and nothing else; the backend holds exactly the objects that were neither a buffer's nor a texture's |
| `TraceLog.TraceRuntime.Record` | src/context/context.c:112-145 | recording appends to an unbounded log; a bad type or the last sequence number changes nothing |
| `TraceLog.TraceRuntime.Read` | src/context/context.c:147-196 | a read answers as a read of the unbounded log with 256 entries of memory would, an unusable one is refused, and none changes the ring |
| `TraceLog.TraceRuntime.CopyOut` | src/context/context.c:187-194 | the copied entries are the log's, in order, and nothing behind them is written |
| `TraceLog.RingAppend` | src/context/context.c:112-145 | overwriting the oldest slot keeps the ring equal to the log's last 256 entries |
| `TraceLog.CountsOfKinds` | src/context/context.c:112-145 | the per-type counts sum to the number of events recorded |
| `TraceLog.TotalsAgree` | src/context/context.c:112-145 | retained plus dropped is the number recorded and the sum of the counts, in every reachable state |
| `TraceLog.ReadIsTheNextSlice` | src/context/context.c:147-196 | a read that does not overrun returns the slice of the log between the old and the new cursor |
| `TraceLog.ReadsDeliverTheLog` | src/context/context.c:147-196 | from any starting cursor, zero and future ones included, any interleaving of records and reads that follow the returned cursor delivers a gap-free, duplicate-free run of the log, until an overrun is reported; from zero it begins with the oldest event retained at the first read that has room |
| `TraceLog.OverrunExactly` | src/context/context.c:171-177 | for every cursor: an overrun is reported exactly when more than 256 events lie ahead of it or it lies past the end of the log |
| `TraceLog.ZeroStartsAtTheOldest` | src/context/context.c:171-173 | cursor zero means the oldest retained event and never overruns |
| `TraceLog.DrainingTerminates` | src/context/context.c:147-196 | with no new records and nonzero capacity, repeated reads reach the end of the log after a number of reads that is given exactly |
| `ObjectTable.NamesRoundTrip` | src/objects/object_table.c:6-33 | decoding inverts encoding on every valid slot and generation, encoding inverts decoding on every valid name, and zero names nothing |
| `ObjectTable.Allocate` | src/objects/object_table.c:35-56 | the first free slot is taken; a full table changes nothing |
| `ObjectTable.ScanFails` | src/objects/object_table.c:35-56 | the scan finds nothing exactly when no slot is free |
| `ObjectTable.AllocationNames` | src/objects/object_table.c:35-56 | allocation makes exactly one name resolve, for one type, and no other lookup changes |
| `ObjectTable.Promote` | src/objects/object_table.c:100-104 | only a reserved slot changes |
| `ObjectTable.PromotionNames` | src/objects/object_table.c:100-104 | promotion changes no lookup |
| `ObjectTable.Release` | src/objects/object_table.c:106-120 | releases the slot a name resolves to, and nothing for a name that does not |
| `ObjectTable.ReleaseNames` | src/objects/object_table.c:106-120 | a released name resolves for no type, and no other lookup changes |
| `ObjectTable.GenerateObjects` | src/objects/framebuffer.c:507-538 | succeeds exactly when enough slots are free, and then gives distinct new names; otherwise every name already allocated is rolled back, all outputs are zero and no lookup differs |
| `ObjectTable.RollBack` | src/objects/framebuffer.c:527-535 | the roll back undoes the allocations one by one |
| `ObjectTable.GenerationsCount` | src/objects/object_table.c:106-120 | over any history of allocations, promotions and releases, a slot's generation depends on the number of its releases only |
| `ObjectTable.RevisitsAfterLives` | src/objects/object_table.c:106-120 | the generation comes back exactly at multiples of 65535 releases |
| `ObjectTable.ReuseExactly` | src/objects/object_table.c:58-120 | over any history a name resolves for a type if and only if its slot is in use for that type and has been released a multiple of 65535 times since |
| `ObjectTable.ReleasedNamesStayDead` | src/objects/object_table.c:58-120 | so slot reuse does not revive a stale name before the 65535th release |
| `ObjectTable.StaleNameRevives` | src/objects/object_table.c:106-120 | and a history of 65535 releases does revive it |
| `VertexArrays.SlotsAreNotShared` | src/objects/object_table.c:58-77 | two different names never resolve to the same slot |
| `VertexArrays.Save` | src/objects/vertex_array.c:20-29 | the working fields become the record of one name, and no other record changes |
| `VertexArrays.Restore` | src/objects/vertex_array.c:31-40 | a record becomes the working fields, current values aside |
| `VertexArrays.BindVertexArray` | src/objects/vertex_array.c:138-171 | binding leaves the abstract map from names to records, every name and every current value as they were, and changes only which entry is current; an unknown name is an error |
| `VertexArrays.SwitchKeepsView` | src/objects/vertex_array.c:138-171 | saving one record and restoring another is invisible in the map |
| `VertexArrays.WorkingIsTheCurrentEntry` | src/objects/vertex_array.c:20-40 | a change of the working fields is a change of the current entry alone |
| `VertexArrays.SetEnabled` | src/context/vertex_attrib.c:49-85 | changes one flag of one descriptor of the current entry |
| `VertexArrays.VertexAttribPointer` | src/context/vertex_attrib.c:87-131 | captures the bound buffer in one descriptor of the current entry; every rejected argument gives its error and no change |
| `VertexArrays.VertexAttribDivisor` | src/context/vertex_attrib.c:133-154 | changes one divisor of the current entry, if the extension is on |
| `VertexArrays.SetCurrent` | src/context/vertex_attrib.c:28-47 | changes one current value and no vertex array |
| `VertexArrays.DetachBuffer` | src/objects/vertex_array.c:191-260 | a deleted buffer disappears from every entry of the map, bound or not, and nothing else does |
| `VertexArrays.DeleteVertexArrays` | src/objects/vertex_array.c:103-136 | removes exactly the named entries, falls back to zero if the bound one is among them, and keeps the current values |
| `VertexArrays.DropOne` | src/objects/vertex_array.c:112-134 | releasing one name removes one entry, also when it is bound |
| `VertexArrays.GenVertexArrays` | src/objects/vertex_array.c:57-101 | adds default entries for new names exactly when enough slots are free; otherwise the map is what it was |
| `VertexArrays.GeneratedView` | src/objects/vertex_array.c:57-101 | the new entries are the only difference in the map |
| `References.BindBuffer` | src/objects/buffer.c:138-165 | changes one binding, or one field of the current entry, and keeps every reference in the context valid |
| `References.UnbindBuffer` | src/objects/buffer.c:111-120 | no binding and no vertex array refers to the name any more |
| `References.ReleaseUnreferenced` | src/objects/buffer.c:111-133 | releasing a name nothing refers to keeps every reference valid and the name dead |
| `References.ReferencesSurvive` | src/objects/object_table.c:106-120 | the same over the table and the references alone |
| `References.DroppingKeepsRefs` | src/objects/object_table.c:106-120 | a table that forgets only a name nothing holds keeps every reference resolving |
| `References.ScrubbingBansAll` | src/objects/vertex_array.c:191-260 | scrubbing working fields, default and saved records leaves no reference to the buffer anywhere |
| `References.GenObjects` | src/objects/framebuffer.c:507-538 | new names invalidate no reference, whether the call succeeds or is rolled back |
| `References.BindArray` | src/objects/vertex_array.c:138-171 | switching vertex arrays keeps every reference valid |
| `References.DeleteArray` | src/objects/vertex_array.c:103-136 | so does deleting one, whose name is dead afterwards |
| `References.GenArrays` | src/objects/vertex_array.c:57-101 | and making new ones |
| `References.AttribPointer` | src/context/vertex_attrib.c:87-131 | and capturing the bound buffer in a descriptor |
| `References.AttribEnabled` | src/context/vertex_attrib.c:49-85 | and enabling one |
| `References.AttribDivisor` | src/context/vertex_attrib.c:133-154 | and setting a divisor |
| `References.AttribCurrent` | src/context/vertex_attrib.c:28-47 | a current value is no reference and changes none |
| `Framebuffers.FramebufferTexture2D` | src/objects/framebuffer.c:757-864 | writes exactly the addressed attachment points of the bound framebuffer, gives a 2D texture layer zero and a cube face its own, and keeps every reference valid; each rejection has its error and leaves every framebuffer alone; the texture's image goes exactly if the call is a texture's first at a colour point and fails at most for the texture's target |
| `Framebuffers.RequireColorTarget` | src/objects/texture.c:4590-4609 | the first time a texture becomes a colour target its image is destroyed; later times nothing happens |
| `Framebuffers.FramebufferRenderbuffer` | src/objects/framebuffer.c:2183-2264 | writes exactly the addressed attachment points, where a colour point keeps the array layer it had; each rejection has its error and no change |
| `Framebuffers.BindTexture` | src/objects/texture.c:2139-2191 | the first bind fixes the target, later binds must agree, and one unit changes |
| `Framebuffers.BindFramebuffer` | src/objects/framebuffer.c:585-611 | changes one binding and keeps every reference valid |
| `Framebuffers.BindRenderbuffer` | src/objects/framebuffer.c:1819-1843 | changes one binding and keeps every reference valid |
| `Framebuffers.DetachEverywhere` | src/objects/framebuffer.c:2266-2339 | every attachment of the object in every framebuffer, bound or not, is reset, and no other |
| `Framebuffers.DetachedEverywhere` | src/objects/framebuffer.c:2266-2339 | afterwards no reference in the context names the object |
| `Framebuffers.UnbindTexture` | src/objects/texture.c:2112-2119 | all units of both targets and all attachments forget the texture |
| `Framebuffers.UnbindRenderbuffer` | src/objects/framebuffer.c:1804-1806 | all attachments and the binding forget the renderbuffer |
| `Framebuffers.DeleteRenderbuffer` | src/objects/framebuffer.c:1779-1817 | its name is dead, no other lookup changes, and every reference left is valid |
| `Framebuffers.DeleteFramebuffer` | src/objects/framebuffer.c:549-583 | its record is cleared, its binding falls back to zero, its name is dead, and every reference left is valid |
| `Framebuffers.HasDuplicate` | src/objects/framebuffer.c:1713-1726 | the loop answers whether two colour slots agree in kind, object, level and layer |
| `AttachHistory.HoldsTheLast` | src/objects/framebuffer.c:757-864 | after any history a colour point holds what was attached to it last, unless it was emptied since, and then nothing |
| `AttachHistory.LayerIsTheLast` | src/objects/framebuffer.c:2229-2233 | its array layer is the last face it was given since it was last emptied; renderbuffers attached meanwhile do not change it |
| `AttachHistory.Perform` | src/objects/framebuffer.c:757-864 | every attach, bind or delete call, with any arguments and in any state, does to the colour points of a framebuffer what its event says if it takes effect, and otherwise nothing |
| `AttachHistory.DuplicatesReportedExactly` | src/objects/framebuffer.c:1713-1726 | over every history: all pairs of points that draw into one image are reported if and only if no renderbuffer sits at two points with different layers left over; a pair that does not is never reported |
| `AttachHistory.AnswerExactly` | src/objects/framebuffer.c:1713-1726 | over every history: the same of the answer as a whole |
| `AttachHistory.Check` | src/objects/framebuffer.c:1713-1726 | from a fresh framebuffer, any sequence of calls and then the check: its answer is exactly whether two points share an image and either hold a texture or have equal layers left over; while no leftovers disagree, whether two points share an image |
| `AttachHistory.StaleLayerHidesDuplicate` | src/objects/framebuffer.c:2229-2233 | three accepted calls put one renderbuffer at two points, and the check does not report it |
| `Buffers.BufferData` | src/objects/buffer.c:195-290 | the buffer's shadow, usage and GPU copy become the new contents, or no buffer and no backend object changes and the error says why; the charge is the sum of the shadows on every path |
| `Buffers.BufferSubData` | src/objects/buffer.c:309-405 | exactly a splice of shadow and GPU copy, or nothing changes |
| `Buffers.MakeReplacement` | src/objects/buffer.c:238-280 | a complete charged copy and its backend object, or neither: no handle survives a failed upload |
| `Buffers.InstallReplacement` | src/objects/buffer.c:282-289 | the old object is destroyed and discharged only after the new one is complete |
| `Buffers.ReplacingMirrors` | src/objects/buffer.c:282-289 | swapping a fresh handle in keeps every buffer's GPU contents equal to its shadow and every other backend object as it was |
| `Buffers.DeleteBuffer` | src/objects/buffer.c:84-136 | shadow, charge, GPU object, name and every reference go together; other names and current values stay |
| `Buffers.DestroyAll` | src/objects/buffer.c:506-526 | no buffer keeps a byte or a handle, and the backend keeps only objects of others |
| `HalfFloat.ReadHalfComponent` | src/objects/texture.c:860-905 | the upload decoder computes the reference decoding |
| `HalfFloat.UnpackHalfComponent` | src/context/sync.c:222-282 | the readback decoder computes the same, its normalisation loop terminating |
| `HalfFloat.Normalize` | src/context/sync.c:258-270 | the loop shifts a subnormal mantissa to its leading bit and counts the shifts |
| `HalfFloat.DecodeIsExact` | src/objects/texture.c:860-905 | the decoded float has exactly the value and sign of the half, for every finite half |
| `HalfFloat.EncodingIsMonotone` | src/objects/texture.c:907-947 | a float of at least the magnitude never encodes to less, over all 2^32 bit patterns, and never above 0x7bff |
| `HalfFloat.EncodingIsNearest` | src/objects/texture.c:907-947 | below overflow the encoded value is within half a unit in the last place; above it the result is 0x7bff and below the value; the sign is kept |
| `HalfFloat.EncodingInvertsDecoding` | src/objects/texture.c:860-947 | encoding a decoded finite half gives the half back |
| `HalfFloat.RoundEvenNearest` | src/objects/texture.c:930-936 | the rounding of subnormal results is off by at most half a unit |
| `HalfFloat.RoundEvenMonotone` | src/objects/texture.c:930-936 | and monotone |
| `HalfFloat.BinadesMeet` | src/objects/texture.c:907-947 | the encoder does not step down from one exponent to the next |
| `HalfFloat.SaturationIsBelow` | src/objects/texture.c:919-946 | saturation happens only above the largest finite half |
| `Srgb.TableIncreases` | src/objects/texture.c:3977-4015 | the 256 entries of the decode table are strictly increasing |
| `Srgb.EncodeFloat` | src/objects/texture.c:4017-4044 | the binary search and the final comparison compute `Encode` |
| `Srgb.SearchSplits` | src/objects/texture.c:4028-4035 | the search ends at the first entry not below the value |
| `Srgb.EncodeIsNearest` | src/objects/texture.c:4017-4044 | for every real value the result is a nearest table entry, the upper one on a tie; outside [0,1] it is the end of the table |
| `Srgb.NearestIsEncode` | src/objects/texture.c:4017-4044 | and the only such entry |
| `Srgb.EncodeIsMonotone` | src/objects/texture.c:4017-4044 | a larger value never encodes to less |
| `Srgb.EncodeInvertsDecode` | src/objects/texture.c:3977-4044 | encoding a decoded byte gives the byte back |
| `PackedColor.JoinInvertsSplit` | src/objects/texture.c:1156-1200 | packing the fields of a word gives the word back, for all three formats |
| `PackedColor.SplitInvertsJoin` | src/objects/texture.c:1156-1200 | fields that fit come back out of a packed word: none spills into another |
| `PackedColor.WidenIsNearest` | src/context/sync.c:164-213 | widening a field to eight bits is rounding to nearest |
| `PackedColor.ExpandPixels` | src/context/sync.c:164-213 | every pixel is expanded, and nothing behind them is written |
| `PackedColor.NarrowInvertsWiden` | src/objects/texture.c:1205-1210 | narrowing undoes widening for every field of a packed format |
| `PackedColor.CopyPixels` | src/objects/texture.c:1357-1436 | every pixel is packed, and nothing behind them is written |
| `PackedColor.CopyInvertsExpand` | src/objects/texture.c:1323-1436 | a word read back and copied into its own format is the same word |
| `PackedColor.PackedImagesSurvive` | src/objects/texture.c:1357-1436 | so are all bytes of an image of any size |
| `PackedColor.ToUnorm8Inverts` | src/objects/texture.c:1323-1330 | rounding v/255 back to eight bits gives v |
| `Rows.CopyRows` | src/context/sync.c:743-747 | the row loop puts the source rows over the destination rows and changes no byte between or beside them |
| `ColorConversion.SwizzleBgra` | src/context/sync.c:152-162 | each pixel's first and third byte change places, in place |
| `ColorConversion.UnpackHalves` | src/context/sync.c:222-282 | all components are decoded, or, exactly if one is not finite, none is written |
| `ColorConversion.EncodeSrgb` | src/context/sync.c:380-403 | each linear pixel becomes its sRGB bytes, opaque without alpha |
| `ColorConversion.SnapshotIsFinite` | src/context/sync.c:323-339 | accepts exactly the images without infinities and NaNs |
| `ColorConversion.FloatOfHalfFits` | src/context/sync.c:222-282 | a finite half decodes to a finite float |
| `Arithmetic.RoundUpIsLeast` | src/context/sync.c:618-621 | the aligned row length is the least multiple of the alignment that holds the row |
| `Readback.ReadbackLayout` | src/context/sync.c:585-637 | succeeds exactly for valid arguments whose sizes fit in 64 bits, and then gives the row, image and required sizes |
| `Readback.ChecksAreExact` | src/context/sync.c:612-626 | the overflow checks reject exactly the layouts that do not fit |
| `Readback.FinishFence.SubmitAndWait` | src/context/sync.c:100-130 | the fence value advances once for each completed wait and never wraps |
| `Readback.ReadColorTarget` | src/context/sync.c:405-568 | a successful read shows every texel of the region converted, tightly packed; nothing behind it is written, staging memory is given back, and an unsupported target or type is refused |
| `Readback.ConvertInPlace` | src/context/sync.c:536-565 | conversion in the caller's own buffer gives the converted native texels |
| `Readback.ConvertStaged` | src/context/sync.c:536-565 | so does conversion through a native buffer |
| `Readback.MakeReadable` | src/context/sync.c:486-506 | the image is recorded as a copy source only after the transition was waited for |
| `Readback.RequiredIsEnough` | src/context/sync.c:629-636 | a read changes no byte at or past the required size |
| `Readback.PixelsRead` | src/context/sync.c:642-752 | byte by byte: a pixel on the target gets its converted value, one off the target keeps its old bytes |
| `Readback.ClipIsTheMeet` | src/context/sync.c:677-692 | the clip rectangle holds exactly the requested pixels that lie on the target |
| `Readback.SplicedCell` | src/context/sync.c:717-740 | after the splice each byte of the tight buffer is the target's inside the clip and the caller's outside |
| `Readback.PublishedIsRead` | src/context/sync.c:742-748 | publishing that buffer row by row is the pointwise specification |
| `Readback.FillClipped` | src/context/sync.c:712-741 | the tight buffer is filled that way, or the call fails with the caller's bytes untouched |
| `Readback.ReadPixelsPacked` | src/context/sync.c:642-752 | the caller's bytes become the pointwise specification on success and are unchanged on every failure; no staging charge remains |
| `Readback.ReadPixelsToBytes` | src/context/sync.c:801-839 | for every rectangle, alignment, type and size: the rejected call has its error and changes nothing, the accepted one meets the specification or fails without a change |
| `MipFilter.MipLevelCount` | src/objects/texture.c:195-208 | the halving loop counts the levels |
| `MipFilter.CountIsExact` | src/objects/texture.c:195-208 | the last level is 1x1, no earlier one is, and there are at most 13 |
| `MipFilter.ExpectedDim` | src/objects/texture.c:210-238 | the expected size of a level is the base size halved that often, at least one |
| `MipFilter.CoverTimesDim` | src/objects/texture.c:2572-2717 | the texels of a level cover a power-of-two base exactly |
| `MipFilter.BoxRounds` | src/objects/texture.c:2655-2709 | one box step is off its exact mean by at most half |
| `MipFilter.LevelNearMean` | src/objects/texture.c:2572-2717 | a component at level k differs from the exact mean of the base components it covers by at most k/2 |
| `MipFilter.LevelBetween` | src/objects/texture.c:2572-2717 | and lies between their least and greatest, so a constant image stays constant |
| `MipFilter.ChainIsSmaller` | src/objects/texture.c:2572-2717 | all higher levels together have fewer texels than the level below them |
| `Mipmaps.BoxComponent` | src/objects/texture.c:2639-2709 | filtering a texel averages each component by itself, in byte and in packed formats: no field overflows into another |
| `Mipmaps.FilterLevel` | src/objects/texture.c:2614-2711 | every byte or packed texel of the next level is the filtered block of its own sources |
| `Mipmaps.ChainIsLevel` | src/objects/texture.c:2572-2717 | the stored chain is the iterated box filter, component by component, for every image size |
| `Mipmaps.GeneratedNearMean` | src/objects/texture.c:2572-2717 | the k/2 bound on the stored bytes |
| `Mipmaps.GeneratedBetween` | src/objects/texture.c:2572-2717 | the range bound on the stored bytes |
| `Mipmaps.PowerOfTwoIs` | src/objects/texture.c:642-645 | the sizes the call accepts are the powers of two those bounds speak of |
| `Mipmaps.GenerateColorMips` | src/objects/texture.c:2572-2717 | a full chain with exactly its charge, or nothing and no charge |
| `Mipmaps.ChainAddsLessThanBase` | src/objects/texture.c:2572-2717 | a chain adds fewer bytes than its base level |
| `Mipmaps.Level0Complete` | src/objects/texture.c:654-710 | a texture can be sampled if and only if it has a base, its sides are powers of two or it is clamped and uses no mipmaps, float components are filtered by nearest unless script has the extension, and every level is there if mipmaps are used |
| `Mipmaps.GeneratedIsComplete` | src/objects/texture.c:240-287 | a generated chain has every level, so the sampled count is the full count and the completeness loop accepts |
| `Mipmaps.GeneratedIsSampleable` | src/objects/texture.c:654-710 | what glGenerateMipmap leaves has every level, and can be sampled in any wrap mode and with any filter exactly if float components are filtered as the extensions allow |
| `Mipmaps.GenerateMipmap2D` | src/objects/texture.c:2801-2833 | a complete chain replaces the old levels, or the texture and the active charge are what they were; an unsuitable texture is an error |
| `Mipmaps.InstallMips` | src/objects/texture.c:2825-2831 | the old levels are freed and discharged, the new ones owned |
| `CubeMipmaps.BaseImagesComplete` | src/objects/texture.c:521-546 | accepts exactly six defined square faces of one size and format |
| `CubeMipmaps.SampledMipCount` | src/objects/texture.c:240-287 | the count stops at the first level that is missing or does not match, on any of six faces for a cube map, is zero exactly if the base images are not complete, and is the full count if every level is there |
| `CubeMipmaps.GeneratedCubeIsComplete` | src/objects/texture.c:240-287 | the six generated chains make every level of the cube map count |
| `CubeMipmaps.CubeLevel0Complete` | src/objects/texture.c:548-593 | a cube map can be sampled if and only if it is clamped and has six matching square bases, float components are filtered by nearest unless script has the extension, and, if mipmaps are used, its side is a power of two and every level is on every face |
| `CubeMipmaps.GeneratedCubeIsSampleable` | src/objects/texture.c:548-593 | what glGenerateMipmap leaves of a cube map has every level on every face, and clamped it can be sampled with any filter its components allow |
| `CubeMipmaps.MakeChains` | src/objects/texture.c:2750-2772 | one chain for each face, or none and no charge |
| `CubeMipmaps.GenerateMipmapCube` | src/objects/texture.c:2733-2800 | all six faces get complete chains, or no face and no charge changes |
| `CubeMipmaps.SummaryStays` | src/objects/texture.c:427-458 | new levels leave the cube map's summary as it was |
| `BlockDecoding.EtcTexel` | src/objects/texture.c:3606-3678 | a block whose bases fit gives three bytes at every position |
| `BlockDecoding.PaletteBetween` | src/objects/texture.c:3805-3838 | interpolated DXT colours lie between their endpoints |
| `BlockDecoding.AlphaFits` | src/objects/texture.c:3840-3913 | explicit and interpolated alpha fit a byte |
| `BlockDecoding.DecodeBlock` | src/objects/texture.c:3606-3678 | a block writes its own texels inside the image, each once, and no others |
| `BlockDecoding.DecodeBlocks` | src/objects/texture.c:3682-3723 | for every size, multiple of four or not: the decoder succeeds exactly if every block is valid, and then has written each texel exactly once, as a function of its own block and place |
| `BlockDecoding.SubRectangle` | src/objects/texture.c:4295-4302 | replacing the blocks of an aligned sub-rectangle and decoding is decoding the sub-rectangle and replacing those texels |
| `BlockDecoding.DropAlpha` | src/objects/texture.c:3952-3969 | an RGB image is the decoded one without its alpha |
| `ImageDecoding.Required` | src/objects/texture.c:3584-3601 | the data size is computed exactly, and an overflow refused |
| `ImageDecoding.DecodeImage` | src/objects/texture.c:3915-3972 | data of the exact size with valid blocks gives the decoded image and its charge; anything else is told apart from want of memory and leaves no charge |
| `LinearImages.LinearizeTexels` | src/objects/texture.c:4046-4090 | every decoded texel becomes the floats of its own components, colour through the table and alpha by itself |
| `LinearImages.LinearizedIsPictured` | src/objects/texture.c:4046-4090 | so the linear image is, texel by texel, what the blocks of an sRGB format stand for |
| `LinearImages.Linearize` | src/objects/texture.c:4046-4090 | the decoded bytes are given back and the floats charged, or only the former |
| `LinearImages.DecodePicture` | src/objects/texture.c:4167-4192 | the picture with its charge, or the reason and no charge |
| `CompressedImages.CompressedTexImage2D` | src/objects/texture.c:4092-4207 | for ETC1, the four S3TC formats and their sRGB variants: the level holds the decoded image, or the floats it stands for, everything else about the texture is as a plain definition leaves it, and every refusal has its error and no change; the decoded copy is freed on every path |
| `CompressedImages.DecodedIsStored` | src/objects/texture.c:4193-4200 | re-reading decoded rows under the unpack alignment stores the decoded image if the rows are aligned |
| `CompressedImages.UnalignedIsRefused` | src/objects/texture.c:4193-4200 | and is refused if they are not |
| `TextureFormats.HalfUploadIsExact` | src/objects/texture.c:949-1057 | uploading a finite half keeps its two bytes |
| `TexUpload.RequiredSourceBytes` | src/objects/texture.c:835-858 | computes the exact size, and refuses exactly what overflows |
| `TexUpload.SourceFits` | src/objects/texture.c:823-858 | every source texel lies within the required size |
| `TexUpload.TightRowsAccepted` | src/objects/texture.c:823-858 | tight rows pass the size check if and only if there is one row or the row is a multiple of the alignment |
| `TexUpload.CopyTexels` | src/objects/texture.c:949-1057 | the rectangle's texels are the converted source texels and no other texel changes |
| `TexImages.TexImage2D` | src/objects/texture.c:2970-3180 | the level is defined with exactly the converted or default texels and the levels it invalidates go; or nothing of the texture or the charge changes and the error says why |
| `TexImages.TexSubImage2D` | src/objects/texture.c:3215-3363 | a pointwise update of the rectangle: other texels and uploaded levels stay, a base update drops the generated levels only, every rejected call changes nothing |
| `TexImages.FillDefaults` | src/objects/texture.c:1075-1106 | a level without pixels is zero, and opaque where the format has no alpha |
| `TexImages.InstallLevel` | src/objects/texture.c:3153-3178 | the charge follows the bytes when a level replaces another |
| `TexImages.DefinitionBalance` | src/objects/texture.c:3153-3178 | a base definition gives up all flat bytes, a higher one only its own level's |
| `TextureStorage.Assign` | src/objects/texture.c:321-334 | the charge nobody owns changes by exactly what an assignment owns less or frees |
| `TextureStorage.DropMipsFrom` | src/objects/texture.c:595-612 | the levels from one on are freed with exactly their charge |
| `TextureStorage.DropGeneratedMips` | src/objects/texture.c:614-630 | only generated levels are |
| `TextureStorage.DiscardImage` | src/objects/texture.c:1624-1635 | the GPU image goes, the storage stays |
| `CubeFaces.FirstDefined` | src/objects/texture.c:427-458 | the face a cube map's summary is taken from is the first defined one |
| `CubeFaces.StaleFaceIsUnread` | src/objects/texture.c:490-519 | leaving the window does not depend on what the lent face still holds |
| `CubeFaces.OpenWindowShowsFaces` | src/objects/texture.c:460-488 | until the first store in the window all faces show what they showed before it |
| `CubeFaces.WindowEditsOneFace` | src/objects/texture.c:460-519 | for any 2D edit of the lent texture, leaving the window changes that face to the edited image, recomputes the summary and leaves the other five faces |
| `CubeFaces.LendingMoves` | src/objects/texture.c:460-488 | entering the window moves each allocation to exactly one owner |
| `CubeFaces.LeavingMoves` | src/objects/texture.c:490-519 | so does leaving it, also when the edit freed and replaced storage |
| `CubeFaces.LeavingKeepsBytes` | src/objects/texture.c:490-519 | and the bytes owned do not change |
| `CubeFaces.Prepare` | src/objects/texture.c:2876-2901 | the bound cube map stands in for the 2D texture with one face lent |
| `CubeFaces.Finish` | src/objects/texture.c:2903-2913 | the 2D binding is restored and the face has its storage back |
| `CubeFaces.CubeTexImage2D` | src/objects/texture.c:2915-2968 | a face definition is the 2D definition of that face, the other faces, the binding and the charge's balance kept; each rejection has its error |
| `CubeFaces.CubeTexSubImage2D` | src/objects/texture.c:3215-3260 | a face update is the 2D update of that face, likewise |
| `CubeImages.CubeCompressedTexImage2D` | src/objects/texture.c:4092-4207 | a compressed face is the compressed 2D image of that face, the others and the binding kept; each rejection has its error |
| `CubeImages.CompressedFaceIsNotSrgb` | src/objects/texture.c:4119-4149 | a compressed definition never sets a face's sRGB flag |
| `CubeImages.SrgbFaceStandsAlone` | src/objects/texture.c:4119-4131 | a base face in an sRGB compressed format is accepted if and only if no other face is defined |
| `CubeImages.SecondSrgbFace` | src/objects/texture.c:4092-4207 | two faces of a cube map in one sRGB compressed format and size, whatever their data: once the first is accepted the second is INVALID_OPERATION and changes no face |
| `CubeImages.SrgbCubeIsIncomplete` | src/objects/texture.c:521-546 | a cube map with such a face has not its six base images |
| `CubeImages.DefinedKeepsAlone` | src/objects/texture.c:2915-2968 | an accepted face definition leaves every face of an sRGB compressed format the only defined one, unflagged |
| `CubeImages.CompressedKeepsAlone` | src/objects/texture.c:4092-4207 | so does a compressed definition, of whatever format |
| `CubeImages.CopiedKeepsAlone` | src/objects/texture.c:4353-4444 | and a copy |
| `Session.SrgbCubesStayIncomplete` | src/objects/texture.c:4119-4131 | in every state a run reaches, a cube map with a face in an sRGB compressed format is incomplete |
| `CubeImages.CubeCopyTexImage2D` | src/objects/texture.c:4353-4444 | a copied face is the copied 2D image of that face, given whether its source resolves, the others and the binding kept; each rejection has its error |
| `CopyImages.CopyTexels` | src/objects/texture.c:1357-1436 | each stored texel is the converted snapshot texel |
| `CopyImages.PackedCopyIsExact` | src/objects/texture.c:4353-4569 | copying a packed target into a texture of its own format reproduces every 16-bit word, from framebuffer to texture storage |
| `CopyImages.CopyTexImage2D` | src/objects/texture.c:4353-4569 | given whether its source resolves, the level holds the converted region, or the texture and the charge are unchanged and the error says why; the snapshot is freed on every path |
| `TextureDeletion.DeleteTexture` | src/objects/texture.c:2085-2137 | units, attachments, name and flat storage go with exactly their charge; what stays charged is exactly the face storage |
| `TextureDeletion.FacesOwnNothing` | src/objects/texture.c:2121-2132 | that is nothing if and only if no face holds a byte |
| `TextureDeletion.DeletionLosesFaces` | src/objects/texture.c:2121-2132 | all a cube map owns is such storage |
| `CubeLoss.OneTexelCube` | src/objects/texture.c:2121-2132 | the smallest texture that loses bytes meets every invariant a texture has between calls, its summary included, and its faces own four |
| `CubeLoss.DefineAndDelete` | src/objects/texture.c:2085-2137 | generate a name, bind it as a cube map, define one square face of any size and delete it: unless an allocation failed, exactly four bytes a texel stay charged for the rest of the context's life |
| `TextureDeletion.DestroyAllTextures` | src/objects/texture.c:4571-4588 | all flat storage and all images go; exactly the faces' bytes stay charged |
| `Session.FlatCallKeeps` | src/objects/texture.c:2970-3363 | what a call on the 2D target promises is enough for the invariant of the whole context |
| `Session.CubeCallKeeps` | src/objects/texture.c:2876-2968 | and what a call on a cube face promises |
| `Session.DeletionKeepsHome` | src/objects/texture.c:2085-2137 | deleting a texture disturbs no other texture, image or unit |
| `Session.DiscardKeeps` | src/objects/texture.c:1624-1635 | destroying one texture's image leaves every buffer's GPU copy and every other image |
| `Session.DiscardOwns` | src/objects/texture.c:1624-1635 | discarding an image orphans no backend object and touches none but the texture's own |
| `Session.BindTex` | src/objects/texture.c:2139-2191 | a bind moves no storage; only a bind as a cube map makes a cube map, and one that is accepted makes the texture one and binds it |
| `Session.DropTexture` | src/objects/texture.c:2085-2137 | deleting a texture keeps every invariant and adds to the charge nobody owns exactly the storage of its faces |
| `Realization.MakeImage` | src/objects/texture.c:1862-1943 | a new backend object with all uploads done, or no object at all |
| `Realization.FreshImage` | src/objects/texture.c:1942-1943 | the new image belongs to its texture alone, and no buffer's copy and no other image changes |
| `Realization.RealizeImage` | src/objects/texture.c:1773-1944 | a texture that has its image keeps it; one that is not realizable gets none, which is decided by its own storage, whether it is a colour target, and its completeness for its sampling state; a failure leaves texture and backend as they were |
| `Realization.CanRealize` | src/objects/texture.c:1673-1698 | the condition: a colour target or depth texture needs a base (a cube map: some face), any other texture has to be complete for its sampling state, and the format to be one that has images |
| `Realization.RealizeUnit` | src/objects/texture.c:1980-2018 | the texture of a unit has an image afterwards only if it is complete for its sampling state; every invariant of the context is kept |
| `NamingCalls.ActiveTexture` | src/objects/texture.c:2204-2221 | selects one of eight units, any other token is an error |
| `NamingCalls.ColorTargetKeeps` | src/objects/texture.c:4590-4609 | making a texture a colour target moves no storage, orphans no image and disturbs no other texture or buffer |
| `ColorTargets.ResolveColorTarget` | src/translate/draw.c:78-128 | resolving the colour target gives the attached texture its image, or fails; no other texture changes, nothing is charged and no object is orphaned |
| `ColorTargets.ReadPixels` | src/context/sync.c:801-839 | a readback of any arguments, whose target is resolved once the request is accepted: the caller's bytes become the pointwise specification or stay, every rejection has its error, no charge and no reference changes, and of the textures at most the image of the attached one |
| `ColorTargets.UnreachedIgnoresResolution` | src/objects/texture.c:4353-4412 | a copy rejected before its source is resolved has the same error whatever the answer would have been |
| `ColorTargets.ResolveSource` | src/objects/texture.c:4405-4412 | a copy resolves its source exactly if its arguments, its binding and the framebuffer pass; of the textures at most the attached one's image changes |
| `ColorTargets.CopyIn2D` | src/objects/texture.c:4353-4569 | resolution and copy together keep every invariant of the context, every charge and all face storage |
| `ColorTargets.CopyIntoFace` | src/objects/texture.c:4353-4444 | and on a cube face they touch only the bound cube map's faces |
| `Runs.PerformNaming` | src/objects/vertex_array.c:57-260 | vertex array, attribute, framebuffer, renderbuffer and readback calls keep the invariant of the context, every charge and all face storage; an attach call may drop its texture's own image |
| `Runs.PerformStorage` | src/context/context.c:353-407 | every other call but deletion of a texture, with any failures, keeps all invariants and loses no byte; only a call on a cube face touches face storage, and only that of the bound cube map |
| `Runs.Perform` | src/context/context.c:353-407 | every modelled call, with any failures, keeps all invariants at once: references valid, GPU copies equal to shadows, no backend object orphaned or touched that is not the context's; and the charge nobody owns grows by exactly the face bytes of the texture the call deletes, which is zero for every other call |
| `Runs.Run` | src/context/context.c:353-407 | over every sequence of calls that charge grows by exactly the sum of the face bytes each deletion met, and by nothing if no call binds a cube map |
| `Runs.LostNothingExactly` | src/objects/texture.c:2121-2132 | that sum is zero if and only if no deleted texture had a byte in a face when it was deleted |
| `Runs.NoFacesExactly` | src/objects/texture.c:4571-4588 | what teardown leaves is zero if and only if no texture then has a byte in a face |
| `Runs.NothingRemainsExactly` | src/context/context.c:353-407 | together: a life leaves nothing charged if and only if neither a deletion nor the teardown meets a face with bytes |
| `Runs.Life` | src/context/context.c:253-407 | create, any calls, destroy: the backend holds exactly the objects it held before; the shared counter returns to its old value plus the face bytes of the textures deleted or left at the end, hence to its old value if and only if there were none, and always if no call binds a cube map |

## Left out

- Device loss, lost-context error suppression and device generations: the calls are those of a live context.
- The spin lock itself, and memory order: each locked region is one step.
- `LedgerProtocol.BudgetHoldsInEveryRun` covers concurrency for the ledger; `Runs.Life` runs one context at a time, as the other contexts reach it only through the shared counter.
- Addresses: `malloc` never returns an address twice in the model, staging memory is a local array whose ledger entry is an address, and the bytes of textures and buffers are values, so aliasing of storage is modelled only as ownership (`CubeFaces.Storages`).
- Realization.RealizeImage: what an image holds on the GPU, its formats and usages are not modelled.
- Sampler state is no field of a texture: `Mipmaps.Level0Complete`, `CubeMipmaps.CubeLevel0Complete` and the calls of `Realization` take it as an argument.
- Realization.MakeImage: states that all uploads of a new image are done, not what the image then holds level by level.
- Realization.RealizeUnit: the sampler made beside the image is no object of the model.
- Shaders, programs, pipelines, draw calls, queries, the vertex-validation cache and dirty bits.
- The completeness check of framebuffers beyond its duplicate test, and the depth and stencil flags of attachments.
- `glReadPixels`, `glTexImage2D` and `glTexSubImage2D` without a size argument: the same code with an unbounded source size.
- `copyTexSubImage2D` and the compressed sub-image call around the decoder: the same parts in other combinations.
- Mipmaps.FilterLevel: for float formats the size, charge and dimensions of the level are proved, its averages are arbitrary bytes.
- Mipmap bounds for sizes that are not powers of two: the call refuses such sizes.
- Srgb.EncodeIsNearest: the value and the table's entries are exact reals; the rounding of the two float subtractions in the final comparison is not modelled.
- Readback.ReadColorTarget: on failure the destination buffer may hold part of the native bytes, as in the code; only `Readback.ReadPixelsPacked` shields the caller from that.
- TexUpload.CopyTexels: sRGB and depth texels are stored through the parameter `rounded`, because their float arithmetic is not modelled.
- CopyImages.CopyTexels: float and sRGB texels are stored through `rounded` for the same reason.
- CopyImages.CopyTexImage2D: float and sRGB targets store through `rounded` likewise.
- CubeImages.CubeCopyTexImage2D: stores through `rounded` likewise; its source is resolved again inside the window, and when that is the very cube map and the inner copy then fails, the code leaves it an image the model does not have.
- Whether the default framebuffer or a renderbuffer resolves is an argument of the calls of `ColorTargets`; what a resolved image shows is the surface of the target.
- LinearImages.LinearizeTexels: the floats of the sRGB table and of v / 255 are the parameter `tones`; `Srgb` has their exact values.
- CompressedImages.CompressedTexImage2D: an sRGB format stores the floats `tones` gives.
- Framebuffers.BindTexture: default sampler parameters of a new texture are not modelled.
- Framebuffers.DeleteRenderbuffer: renderbuffers have no storage in the model, so the image destroyed with one is not part of it.
- BlockDecoding.DecodeBlocks: the C code decodes into memory of the context; that it writes each texel once is shown with a ghost count.
- Renderbuffer storage and images, draw buffers and deletion calls with several names: a run deletes name by name, as the loops do.
- ContextLifetime.Destroy: the finish fence, the command list, and the programs, pipelines, samplers and renderbuffer images that the source destroys there are no objects of the model's backend.
- The protocol's teardown is not compared step by step with `ContextLifetime.Destroy`; both say that it gives back all a context is charged for but what its clients still hold.
- TraceLog.TraceRuntime.Read: the null, overlap and 32-bit size tests of its pointers are the one parameter `usable`.
- ContextLifetime.Create: the tests of the creation descriptor are the one parameter `described`.
- Reflection queries, ABI sizes and the software surface of src/platform.
