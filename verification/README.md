# Verified model of the Bus Pirate firmware's data paths

This project models the parts of the firmware that carry data between cores, buffers and hosts, and
proves what they promise. `dafny verify dfyconfig.toml` checks all of it.

* **FlatBuffers runtime** (`Options`, `Bytes`, `Scalars`, `Schema`, `Verifier`, `WellFormed`, `Nesting`, `Reader`,
  `Soundness`, `Limits`, `EmitSpace`, `Layout`, `Emission`, `VtableCache`, `Frames`, `Builder`, `Acceptance`,
  `Values`, `RoundTrip`, `Emitter`, `Refmap`, `VectorSort`). A buffer is built back to front in a signed emit space. The heart of the model is the
  set of objects the creating calls describe, and the invariant that each is laid out where its
  reference says with every offset resolving exactly. What such objects denote is defined without
  looking at bytes; the verifier accepts, and the reader returns, exactly that. One generic schema
  interpreter stands for the code that is generated per table type. The verifier accepts exactly the buffers
  that are well formed. Independently of any builder, bytes the verifier accepts can be read without fault
  under a condition on the schema and the address that is proved exact. The emitter's ring of pages refines
  the emit space, the vtable cache a plain map, the reference map a plain map, and the heap sort sorts what offsets
  lead to.
* **Queues between the cores** (`Spsc`, `SpscCalls`, `RxInput`, `UsbTx`). Every access to a shared
  location is a step, and a core may see any value of the other's index not older than the last one it
  saw. The run theorems are about these steps; the calls are then written out with the other core running
  between any two accesses, and the receive and transmit services are built on them.
* **JSON strings** (`JsonText`, `JsonParser`, `JsonPrinter`). Escaping, parsing, the surrogate and UTF-8
  arithmetic (section 7 of RFC 8259, section 3 of RFC 3629, section 2 of RFC 2781), and the printer's two
  flushing buffers.
* **Command compiler and executor** (`Syntax`, `SyntaxRun`, `SyntaxIo`). Slot budgeting and repeat expansion,
  for every program, whether its results fit or not.
* **USB disk medium handshake** (`MscDisk`). Core 0's requests against the host's polls.

These properties one might expect do not hold of the code. The model keeps the code as it is, gives inputs
and runs that fail, and says exactly when the property holds:

* Padding the end of a buffer by its own remainder aligns it only when that remainder is zero or half the
  alignment (`Layout.BackPadFills`).
* A verified buffer is not always safe to read. The verifier looks at the address of scalar fields, not of
  vector elements (`Limits.AcceptedAt4`). It accepts a union vector field with values and no types, whose
  values it never looks at and the accessor follows (`Limits.AcceptedWithoutTypes`), and one with types and
  no values, on which the accessor's assertion fails (`Limits.AcceptedWithoutValues`). It accepts a required
  union of type NONE without the value the accessor asserts (`Limits.RequiredNone`). Reading is safe when the
  address meets every vector alignment the schema names, every union vector is required and no union is
  (`Soundness.AcceptedIsSafeToRead`), and only then (`Limits.SafeExactly`, `Limits.SafeAddresses`).
* The nesting limit does not bound how deep the tables of an accepted buffer nest (`Nesting.NestsDeep`): a
  vector of tables takes the level counter two down, past the level at which alone a table is turned away
  (`Nesting.LevelTests`). In schemas without vectors of tables or unions it does (`Nesting.AcceptedNests`).
* A floating-point zero whose default is the zero of the other sign is left out, and reads back as the
  default (`Values.NegativeZeroLost`); every other value reads back bit for bit (`Values.SeenExactly`).
* Sorting by a floating-point key need not put it in order when there is a NaN among the keys
  (`VectorSort.FloatsWithNaN`): nothing is then less or greater than the NaN. The comparison orders the keys
  there are exactly when `VectorSort.FloatsExactly` says, and the sort then sorts (`VectorSort.HeapSort`).
* The compiler's slot charge does not keep it inside its output buffer when repeats of zero occur
  (`Syntax.ZeroRepeatsOverrun`; exactly when, `Syntax.CompilesExactly`), nor bound the slots a program needs
  when the 32-bit charge wraps (`Syntax.WrappedChargeAccepted`, `SyntaxRun.WrappedRunsPast`; exactly when,
  `SyntaxRun.AcceptedFitsExactly` and `SyntaxRun.PastExactly`).
* A read can be refused although its results fit, because the slot test looks at the repeats of the
  program's first instruction (`SyntaxRun.LongDelayThenRead`; exactly when, `SyntaxRun.FittingRun` and
  `SyntaxRun.CarriedOut`).
* A call to eject the medium need not return. It waits for ever after a previous eject the host has polled
  once (`MscDisk.SecondEjectStuck`, `MscDisk.EjectStuck`), and, while the host only polls, after the host's
  own eject (`MscDisk.HostEjectedFirst`): its test for a medium that is out lets both through
  (`MscDisk.EjectCallAnswered`).
* A call to insert the medium while it is in does not return while the host only polls
  (`MscDisk.InsertWhileIn`, `MscDisk.InsertCallAnswered`).

The page size of the emitter is 2944, the load factor of the reference map 179/256 with 8 buckets at
least, and the nesting limit of the verifier 100, as the headers define them. Alignments are powers of two
and the source's masks are written as remainders.

## Model

| member | source | states |
|---|---|---|
| `RoundTrip.BuildBuffer` | src/builder.c:811-871 | Any value that conforms to a schema (scalars equal to their default or not, strings, scalar and string vectors, child tables, table vectors, unions, union vectors), its table fields added in any order, of a size bound below 2 GiB and nested below the verifier limit, is built into a top-level buffer whose bytes, at any suitably aligned address, the verifier accepts and the reader reads back: equal in value everywhere, and bit for bit unless the value holds a zero whose default has the other sign. Everything in it lies behind its header and least padding and before zeros that fill its end; with alignment 4 its size is a multiple of 4 |
| `RoundTrip.Deliver` | src/emitter.c:197-269 | From the builder calls through the page ring to the reader: what is copied out of the emitter after a value was built is accepted and reads back as for BuildBuffer; only too small a destination is refused |
| `RoundTrip.FinishedReadsBack` | src/verifier.c:558-562 | A finished buffer whose root denotes v is accepted as a root table and read back as v at every address that meets its alignment |
| `RoundTrip.BuildTable` | src/builder.c:1331-1379 | A table built with its fields added in any order denotes the values it was built from; the open parent, earlier objects and the buffer alignment are as before; its cost is bounded |
| `RoundTrip.InAnyOrder` | src/builder.c:1789-1862 | Whatever permutation its fields were added in, a table denotes the same values |
| `RoundTrip.BuildFields` | src/builder.c:1789-1862 | Adding any list of fields with different ids, children built in between, leaves cells that denote exactly the values, in a payload of the predicted size |
| `RoundTrip.FieldAdded` | src/flatbuffers_common_builder.h:415-480 | What an add macro leaves, a default left out, a reference, a type with its value, or two vectors, denotes the field value as it reads back |
| `RoundTrip.BuildBoth` | src/builder.c:1613-1626 | The two vectors of a union vector denote its types and members, nothing under type NONE |
| `Values.SeenExactly` | src/flatbuffers_common_builder.h:472-475 | A value reads back bit for bit if and only if no floating-point zero in it has the zero of the other sign for its default |
| `Values.SeenAlike` | src/flatbuffers_common_builder.h:472-475 | What is read back is the value but for scalars that compare equal to it |
| `Values.NegativeZeroLost` | src/flatbuffers_common_builder.h:472-475 | A float of negative zero with default zero conforms and reads back as positive zero |
| `Scalars.SameUnlessZeros` | src/flatbuffers_common_builder.h:472-475 | Scalars of different bytes compare equal only as the two floating-point zeros |
| `RoundTrip.DenoteGrows` | src/builder.c:640-669 | What a reference denotes does not change when more objects are created |
| `RoundTrip.PushStrings` | src/builder.c:943-974 | Strings created inside an open offset vector and pushed onto it are, in order, what the vector denotes |
| `BuilderOps.Builder.EndTable` | src/builder.c:1331-1379 | Ending a table emits one object with exactly the added cells and the least padding, shares its vtable when the cache knows it and else emits one, at the back when clustered; gives the parent back unchanged, and fails only past 2 GiB |
| `BuilderOps.Builder.EndString` | src/builder.c:1765-1777 | Ending a string emits one object holding the collected characters and gives the parent back unchanged |
| `BuilderOps.Builder.EndVector` | src/builder.c:1425-1438 | Ending a vector emits one object holding its elements and gives the parent back unchanged |
| `BuilderOps.Builder.EndOffsetVector` | src/builder.c:1507-1518 | Ending an offset vector emits one object holding the pushed references and gives the parent back unchanged |
| `BuilderOps.Builder.EndBuffer` | src/builder.c:850-871 | The finished buffer starts at a multiple of every alignment inside it, headed by an offset to its root, padded with zeros at both ends; its size is a multiple of its alignment exactly when the end was past one by none or half of it |
| `BuilderOps.Builder.AddScalar` | src/flatbuffers_common_builder.h:472-475 | A scalar that compares equal to its default adds nothing; otherwise one cell is added, once |
| `BuilderOps.Builder.AddUnion` | src/flatbuffers_common_builder.h:415-419 | A union adds its type one id below its value, and nothing for NONE |
| `BuilderOps.Builder.AddUnionVector` | src/flatbuffers_common_builder.h:580-584 | A union vector adds its type vector one id below its value vector, neither when both are null, and fails on one of them |
| `BuilderOps.Builder.CreateUnionVector` | src/builder.c:1613-1626 | Two fresh objects, the references with their nulls and the types, everything earlier intact; fails only past 2 GiB |
| `BuilderOps.RefsPushed` | src/builder.c:951-965 | Pushing a reference on the data stack appends exactly it to the references the stack decodes to |
| `Emission.EmitState.CreateString` | src/builder.c:1736-1753 | A new string object at a fresh reference, with the least padding of zeros, everything earlier intact; fails only past 2 GiB |
| `Emission.EmitState.CreateVector` | src/builder.c:1381-1411 | A new vector object whose first element is aligned by the least padding of zeros, everything earlier intact; refused above its maximum count |
| `Emission.EmitState.CreateOffsetVector` | src/builder.c:1451-1499 | A new vector of references every one of which resolves exactly to its target, at a higher address, with the least padding of zeros |
| `Emission.EmitState.CreateVtable` | src/builder.c:1119-1172 | The vtable words emitted at the front or clustered at the back, at an even address, named by an odd reference |
| `Emission.EmitState.CreateTable` | src/builder.c:1251-1289 | A new table whose vtable and every logged offset field resolve exactly, payload aligned by the least padding of zeros |
| `Emission.EmitState.CreateBuffer` | src/builder.c:702-791 | A buffer header aligned to the largest alignment inside, whose offset resolves to the root; in front the least padding, behind the old end as many zeros as it was past a multiple, so that the size is a multiple of the alignment exactly when that was none or half of it |
| `Emission.EmitState.AlignBufferEnd` | src/builder.c:702-723 | The end grows by its own remainder; everything earlier intact |
| `Emission.EmitState.EmitFront` | src/builder.c:640-669 | Front emission prepends exactly the data, or fails when the 32-bit reference would not go down |
| `Emission.EmitState.EmitBack` | src/builder.c:671-699 | Back emission appends exactly the data, or fails when the 32-bit end would not go up |
| `Emission.EncodeRefs` | src/builder.c:1472-1497 | References replaced in place by offsets relative to each element, nulls kept |
| `Emission.PatchOffsets` | src/builder.c:1276-1282 | Each logged reference replaced by its offset from its own position, every other byte kept |
| `Emission.TableCreated` | src/builder.c:1251-1289 | The emitted pieces of a table lay out exactly its cells: raw bytes aligned, links leading up to their targets |
| `Emission.RefsCreated` | src/builder.c:1466-1498 | The emitted pieces of an offset vector lay out exactly its references |
| `Emission.VtableCreated` | src/builder.c:1119-1172 | An emitted vtable reads back as its words, and earlier objects and vtables still do |
| `Layout.BackPadFills` | src/builder.c:635-638 | Padding the end by its own remainder aligns it if and only if that remainder is zero or half the alignment |
| `Layout.BackPadMisses` | src/builder.c:635-638 | An end at 6, as a vtable of one field leaves it, is padded to 12 for an alignment of 8 |
| `Layout.PadAligns` | src/builder.c:630-633 | Front padding brings the first element to a multiple of the alignment |
| `Layout.RefsLaid` | src/builder.c:1466-1498 | The i-th stored word of an offset vector leads to the i-th reference |
| `Layout.TableLaid` | src/builder.c:1267-1288 | A table emitted over its vtable has exactly the described fields |
| `Layout.PatchStep` | src/builder.c:1276-1282 | Patching one more logged word changes that word alone |
| `EmitSpace.HeapExtends` | src/builder.c:640-699 | Emission at either end keeps every object where its reference says |
| `VtableCache.Cache.CreateCached` | src/builder.c:1174-1249 | Answers like a plain map keyed by bucket, buffer and words: a known vtable is returned without emission, a new one emitted, at the back when vtables are clustered, and remembered, its words kept once, or all forgotten on a flush; what was asked for last comes first in its chain; the reference always denotes the requested words in this buffer |
| `VtableCache.Cache.Search` | src/builder.c:1191-1217 | The chain walk finds the descriptor of these words in this buffer if and only if it is known, and a copy of the words from another buffer if there is one |
| `VtableCache.Cache.MoveToFront` | src/builder.c:1208-1213 | A hit becomes the head of its chain, the rest of which keeps its order; no answer changes |
| `VtableCache.Cache.Flush` | src/builder.c:383-394 | A flush forgets everything, gives up the words kept, and leaves a well-formed cache |
| `VtableCache.MovedBucket` | src/builder.c:1208-1213 | Unlinking an element and linking it in front gives the same chain reordered, knowing the same vtables |
| `VtableCache.AddedBucket` | src/builder.c:1219-1246 | A new descriptor in front of its chain makes exactly its own key known |
| `Frames.FrameStack.Enter` | src/builder.c:581-607 | Opening a container saves the parent exactly and starts empty on zeroed memory |
| `Frames.FrameStack.Exit` | src/builder.c:609-628 | Leaving a container restores the parent registers and stack contents exactly, with zeros beyond |
| `Frames.FrameStack.StartTable` | src/builder.c:1090-1108 | Opening a table saves the enclosing table registers and starts an empty one behind its entries |
| `Frames.FrameStack.CloseTable` | src/builder.c:1365-1378 | Leaving a table restores data stack, vtable stack, patch log, hash, id and alignment registers exactly |
| `Frames.FrameStack.TableAdd` | src/builder.c:1789-1827 | Adds an inline field once, at its alignment; entries, payload and cells stay in step |
| `Frames.FrameStack.TableAddOffset` | src/builder.c:1846-1862 | Adds an offset field once and logs it for patching |
| `Frames.FrameStack.Append` | src/builder.c:901-941 | Appends elements unless the count would exceed its maximum or wrap |
| `Frames.FrameStack.Truncate` | src/builder.c:1004-1029 | Drops the last elements, leaving zeros, or refuses |
| `Frames.FieldsDescribe` | src/builder.c:1341-1360 | The vtable written at table end describes exactly the cells added |
| `Frames.RawAdded` | src/builder.c:267-290 | An inline field added behind the payload keeps payload, entries and cells in step |
| `Frames.LinkAdded` | src/builder.c:292-308 | An offset field added behind the payload keeps payload, log, entries and cells in step |
| `Frames.Closed` | src/builder.c:609-628 | The stack below a container is well formed again once it is left |
| `WellFormed.AcceptsExactly` | src/verifier.c:558-562 | On any bytes: the verifier accepts a root exactly when it is well formed, which is said of the bytes in exact arithmetic and with no order among the conditions |
| `WellFormed.TableExactly` | src/verifier.c:298-326 | A table is accepted exactly when its offset leads on, its vtable and itself lie inside the buffer, its level is not used up, and every field is well formed |
| `WellFormed.FieldExactly` | src/verifier.c:376-427 | A field of any kind is accepted exactly when it is absent and not required, or lies aligned inside its table and leads to what it should |
| `WellFormed.StringExactly` | src/verifier.c:246-256 | A string is accepted exactly when it lies inside the buffer with a zero byte behind it |
| `WellFormed.VectorExactly` | src/verifier.c:263-282 | A vector is accepted exactly when all its elements lie inside the buffer, aligned unless there are none; the 32-bit count test loses nothing |
| `WellFormed.UnionExactly` | src/verifier.c:620-652 | A union is accepted exactly when type and value agree: no value under no type or type NONE, and a member of the type otherwise |
| `WellFormed.UnionVectorExactly` | src/verifier.c:654-680 | A union vector is accepted exactly when it has no types, or types and no values while neither is required, or as many of both, null under type NONE alone |
| `Nesting.AcceptedNests` | src/verifier.c:298-342 | In a schema without vectors of tables or unions, what is accepted nests at most 99 tables |
| `Nesting.LevelTests` | src/verifier.c:298-342 | A table is turned away for its level on one level alone, not below it; a vector of tables on every level from zero down |
| `Nesting.NestsDeep` | src/verifier.c:298-342 | For every n below 2 to the 26 there are bytes that are accepted and whose tables nest more than n deep: a vector met on the last level takes the level below zero |
| `Verifier.RunStringVector` | src/verifier.c:284-296 | The loop reports the first bad string, or success, as the recursive specification does |
| `Verifier.RunTableVector` | src/verifier.c:328-341 | The loop reports the first bad table, or success, as the recursive specification does |
| `Verifier.RunUnionVector` | src/verifier.c:343-374 | The loop over types and values reports the first bad member, or success, as the recursive specification does |
| `Verifier.GetOffsetField` | src/verifier.c:214-244 | A present offset field lies strictly behind its table header, inside the buffer and aligned |
| `Verifier.VerifyTableHeader` | src/verifier.c:298-326 | An accepted header gives a table and vtable that lie inside the buffer, strictly further on than the field |
| `Verifier.VectorInBounds` | src/verifier.c:263-282 | An accepted vector has all its elements inside the buffer, aligned, in exact arithmetic |
| `Soundness.AcceptedIsSafeToRead` | src/verifier.c:558-562 | Whatever bytes the verifier accepts as a root, where every field the schema names is readable (the address meets its vector alignment, a union is not required, a union vector is), the full recursive reading touches only bytes of the buffer, each access aligned in memory, finds every string terminated, and fails no assertion |
| `Limits.SafeExactly` | src/verifier.c:558-562 | For a schema and an address: everything accepted can be read, whichever table type is the root, if and only if every field is readable there, in tables that require no field beside one that is not |
| `Limits.SafeAddresses` | src/verifier.c:263-282 | Of all schemas whose union vectors are required and unions are not, and whose vectors are aligned to at most a, everything accepted can be read at exactly the addresses that are multiples of a |
| `Limits.UnsafeAccepted` | src/verifier.c:376-427 | Any field that is not readable has bytes that hold it alone, are accepted whatever the rest of the schema, and make the reading fault |
| `Limits.OneElement` | src/verifier.c:263-282 | A vector of one element, of any alignment from 8 on, is accepted at every address the header check accepts and readable exactly where its alignment is met |
| `Limits.ValuesAlone` | src/verifier.c:654-680 | A union vector field with values and no types is accepted unseen, and its accessor follows it outside the buffer |
| `Limits.TypesAlone` | src/flatbuffers_common_reader.h:216-227 | A union vector field with types and no values is accepted, and its accessor asserts that the lengths agree |
| `Limits.RequiredNone` | src/verifier.c:620-652 | A required union of type NONE is accepted without the value its accessor asserts |
| `Limits.AcceptedAt4` | src/verifier.c:263-282 | At address 4 a vector of one 8-byte element is accepted and lies at address 28 |
| `Limits.AcceptedWithoutTypes` | src/flatbuffers_common_reader.h:223-227 | Sixteen bytes, accepted at every address, whose union vector accessor loads at position 65547 |
| `Limits.AcceptedWithoutValues` | src/flatbuffers_common_reader.h:223-227 | A table of one type and no value, accepted at every address, whose accessor fails its assertion |
| `Soundness.VtableTestsAgree` | src/flatbuffers_common_reader.h:14-24 | The reader test on the vtable size and the verifier test find the same entry for every id |
| `Soundness.TableSafe` | src/verifier.c:298-326 | An accepted table is read without fault where every field is readable |
| `Soundness.FieldSafe` | src/verifier.c:376-427 | An accepted field of any kind is read without fault where every field is readable |
| `Soundness.UnionSafe` | src/verifier.c:620-652 | An accepted union that is not required, its type known or not, is read without fault |
| `Soundness.UnionVectorSafe` | src/verifier.c:654-680 | An accepted union vector that is required is read without fault: both its vectors are there, inside the buffer and of one length |
| `Soundness.StringsSafe` | src/flatbuffers_common_reader.h:108-137 | Every string of an accepted string vector is read without fault, and is terminated |
| `Acceptance.AcceptRoot` | src/verifier.c:558-562 | A finished root accepted and read back as what its creating calls describe |
| `Acceptance.AcceptTable` | src/verifier.c:298-326 | A table laid out in a finished buffer is accepted at every permitted depth, and read back |
| `Acceptance.AcceptVector` | src/verifier.c:263-282 | A scalar vector laid out in a finished buffer is accepted, and read back |
| `Acceptance.AcceptString` | src/verifier.c:246-261 | A string laid out in a finished buffer is accepted, and read back |
| `Acceptance.AcceptUnion` | src/verifier.c:620-652 | A union laid out in a finished buffer is accepted, and read back |
| `Acceptance.AcceptUnions` | src/verifier.c:654-680 | A union vector laid out in a finished buffer is accepted, and read back |
| `Acceptance.FollowsTo` | src/verifier.c:126-136 | A stored offset in a finished buffer passes the header check and leads to its object |
| `Emitter.EmitterState.Emit` | src/emitter.c:197-241 | Whatever path is taken, front emission prepends and back emission appends exactly the pieces, as in the builder emit space; the used count keeps up |
| `Emitter.EmitterState.CopyFront` | src/emitter.c:89-112 | One piece is put before the buffer across any number of pages |
| `Emitter.EmitterState.CopyBack` | src/emitter.c:114-136 | One piece is put behind the buffer across any number of pages |
| `Emitter.EmitterState.AdvanceFront` | src/emitter.c:6-46 | A new front page, spare or allocated, leaves the buffer as it is and the pages one page apart |
| `Emitter.EmitterState.AdvanceBack` | src/emitter.c:48-87 | A new back page, spare or allocated, leaves the buffer as it is and the pages one page apart |
| `Emitter.EmitterState.CopyBuffer` | src/emitter.c:243-269 | The destination starts with exactly the emitted bytes, front to back, the rest of it untouched; refused when too small or empty |
| `Emitter.EmitterState.Reset` | src/emitter.c:152-179 | From any intact ring: an empty buffer, and spare pages freed while the capacity exceeds twice the running average, which takes three parts of what it was and one of the last use |
| `Emitter.EmitterState.RecyclePage` | src/emitter.c:138-150 | A page that is neither front nor back moves out of the live pages, the ring stays whole, and recycling a spare page keeps the buffer |
| `Emitter.PageRemoved` | src/emitter.c:143-144 | Unlinking a page leaves a ring of the others |
| `Emitter.PageAdded` | src/emitter.c:17-22 | Linking a page in before the front leaves a ring with it last |
| `Emitter.FrontWritten` | src/emitter.c:105-109 | Writing before the front cursor prepends to the buffer |
| `Emitter.BackWritten` | src/emitter.c:129-132 | Writing at the back cursor appends to the buffer |
| `Spsc.RunKeeps` | src/spsc_queue.h:93-281 | Over every interleaving and every choice of stale views: delivered bytes are the added bytes in order less what flushes dropped, at most capacity less one are held, and nothing delivered is revised |
| `Spsc.NoFlushPrefix` | src/spsc_queue.h:142-166 | Without a flush the removed bytes are a prefix of the added ones |
| `Spsc.StepKeeps` | src/spsc_queue.h:93-281 | Every step of either core keeps the queue invariant |
| `Spsc.OnlyVersion` | src/spsc_queue.h:151-156 | Of all stores a stale read of the slot might see, only the byte added at the tail is visible |
| `Spsc.SlotFree` | src/spsc_queue.h:102-105 | The slot being written holds no unread byte, and is not the slot being read |
| `Spsc.FullTest` | src/spsc_queue.h:94-100 | The masked full test is exact on the counts, however old the tail it sees |
| `Spsc.EmptyTest` | src/spsc_queue.h:143-149 | The masked empty test is exact on the counts, however old the head it sees |
| `Spsc.FlushDrops` | src/spsc_queue.h:275-281 | A flush consumes exactly the bytes up to the head it saw and delivers none |
| `Spsc.LevelCounts` | src/spsc_queue.h:233-239 | The masked 32-bit difference of the indices is the number of pending bytes, wrapped or not |
| `Spsc.FreeLasts` | src/spsc_queue.h:250-253 | After free returns f, the next f adds succeed under any interleaving, and f is all the room behind the tail it saw |
| `Spsc.LastingRoom` | src/spsc_queue.h:93-114 | As many adds as fit the room the producer knows of all succeed, whatever the consumer does |
| `SpscCalls.Queue.TryAdd` | src/spsc_queue.h:93-114 | With the consumer running between any two accesses: the tail is looked at once, and the byte appended or the queue seen full |
| `SpscCalls.Queue.TryRemove` | src/spsc_queue.h:142-166 | With the producer running between any two accesses: the head is looked at once, and the byte at the tail delivered or the queue seen empty |
| `SpscCalls.Queue.TryPeek` | src/spsc_queue.h:193-208 | The byte at the tail is seen and nothing consumed, or the queue looked empty |
| `SpscCalls.Queue.Flush` | src/spsc_queue.h:275-281 | Drops exactly what was pending when the head was read |
| `SpscCalls.Queue.Free` | src/spsc_queue.h:250-253 | Returns the room the producer knows of |
| `RxInput.ServiceInterface` | src/pirate.c:802-824 | As many bytes as are pending and as the free space looked up meanwhile allows go from the USB stack to the queue, in order; the add never fails |
| `RxInput.RxTask` | src/pirate.c:802-824 | Both interfaces are served, each into its own queue |
| `RxInput.RttTerminal.Poll` | src/usb_rx.c:136-158 | Across polls no typed character is lost or reordered; a poll ends with one carried over because the queue, looked at in this poll, was full, or with the host asked and everything typed read |
| `UsbTx.Transmitter.Service` | src/usb_tx.c:107-230 | Each call keeps the wire a loss-free order of queue bytes with requested frames whole and uninterrupted, begun only after three empty looks, and what the ports carried exactly that, write by write; it sends up to 64 bytes seen in the queue or the next part of a due frame, and nothing without room |
| `UsbTx.PortReads` | src/usb_tx.c:176-228 | A port that was on throughout has carried text and whole frames one after the other, and at most the beginning of one more frame |
| `UsbTx.Transmitter.SendPart` | src/usb_tx.c:182-197 | A part of a frame reaches every port that is on, and extends the frame a receiver is reading |
| `UsbTx.Transmitter.ServiceIdle` | src/usb_tx.c:130-157 | Idle output is the next bytes of the queue, 64 or all that were seen, written as they are to every port that is on; with no host what was seen is dropped; an empty queue gives way to a pending frame |
| `UsbTx.Transmitter.ServiceDelay` | src/usb_tx.c:158-175 | A frame is reached only through three consecutive empty looks at the queue; any other look gives up |
| `UsbTx.Transmitter.ServiceToolbar` | src/usb_tx.c:177-205 | The next part of the frame is written, following the part before it; the last part ends it |
| `UsbTx.Transmitter.ToolbarStart` | src/usb_tx.c:83-89 | A frame handed over while none is pending becomes the next requested frame |
| `UsbTx.ServiceBinary` | src/usb_tx.c:271-296 | One write of 64 queue bytes, or of all the queue, looked at in this call, holds, when the endpoint has room; nothing lost |
| `UsbTx.Drain` | src/usb_tx.c:138-146 | Removes 64 bytes in order, or all that the consumer sees |
| `UsbTx.StartsKept` | src/usb_tx.c:158-175 | Logging an event keeps every frame start quiet, provided a new frame follows three empty looks |
| `Refmap.Refmap.Insert` | src/refmap.c:122-148 | Refines a map update; a table full enough first grows to fit twice what it holds; fails exactly when an allocation was refused in the call, never on a map without buckets, and then leaves the map alone |
| `Refmap.Refmap.Find` | src/refmap.c:150-169 | Returns what the map holds, or not found |
| `Refmap.Refmap.Resize` | src/refmap.c:76-120 | Growing or shrinking keeps the map and gives it the fitting size; fails exactly when the allocation was refused, never when the 8 built-in buckets or the present ones fit; its inserts never resize again |
| `Refmap.Refmap.Reset` | src/refmap.c:64-70 | Empties the map and keeps the buckets |
| `Refmap.Refmap.Search` | src/refmap.c:134-144 | The probe loop ends, at the key or at an empty slot that proves it absent |
| `Refmap.FitBuckets` | src/refmap.c:88-92 | The fewest doublings of the minimum that leave the count below the load factor |
| `Refmap.LoadFactor` | src/refmap.c:30-38 | A table is full enough when one more item would take it past 179 parts in 256; the 8 built-in buckets hold five |
| `Refmap.NotStored` | src/refmap.c:136-143 | An empty slot met on the probe sequence proves the key absent, for any hash |
| `Refmap.AddedItem` | src/refmap.c:144-147 | Filling the first empty slot represents the map with the key added |
| `VectorSort.HeapSort` | src/flatbuffers_common_reader.h:405-413 | Permutes what the elements stand for, values or offset targets, by whatever comparison; sorts them when it is a total order on the keys there are |
| `VectorSort.FloatsWithNaN` | src/flatbuffers_common_reader.h:421 | Floats with a NaN among them are in no total order |
| `VectorSort.FloatsExactly` | src/flatbuffers_common_reader.h:421 | Floats are totally ordered exactly when none is a NaN, or all that are none are equal |
| `VectorSort.SortByFloat` | src/flatbuffers_common_reader.h:405-413 | Sorts floats without a NaN among them into ascending order; always a permutation |
| `VectorSort.FindByFloat` | src/flatbuffers_common_reader.h:262-263 | Among ascending floats, the lowest index of the number asked for, or none; a NaN is found at the front |
| `VectorSort.SiftDown` | src/flatbuffers_common_reader.h:383-404 | Restores the heap below a node by a permutation of the heap part alone; without a total order permutes it still |
| `VectorSort.Swap` | src/flatbuffers_common_reader.h:423-430 | Exchanges what two elements stand for, rewriting relative offsets modulo 32 bits |
| `VectorSort.BestChild` | src/flatbuffers_common_reader.h:387-395 | The child chosen is no smaller than the other; the root, its own left child, picks itself or node 1 |
| `VectorSort.RootIsMax` | src/flatbuffers_common_reader.h:383-404 | The root of the heap is a maximum, node 1 being its child |
| `VectorSort.Find` | src/flatbuffers_common_reader.h:242-261 | On a vector divided by the key into less, equal and greater, binary search answers with the lowest matching index or not found |
| `VectorSort.FindByString` | src/flatbuffers_common_reader.h:264-265 | On a vector sorted by the length-aware comparison, the lowest index of an equal C string, or none; so too the scan by strcmp |
| `VectorSort.FindByStringN` | src/flatbuffers_common_reader.h:266-267 | On a sorted vector, the lowest index of a string as long and equal before a NUL, or none, as the scan |
| `VectorSort.SortedPartitions` | src/flatbuffers_common_reader.h:242-261 | A vector sorted by a comparison is so divided by every key it ranks |
| `VectorSort.SortByScalar` | src/flatbuffers_common_reader.h:405-413 | Sorts numbers into ascending order, a permutation of what was there |
| `VectorSort.SortByString` | src/flatbuffers_common_reader.h:405-413 | Sorts strings by characters, then length, a permutation of what was there |
| `VectorSort.StringDiffers` | src/flatbuffers_common_reader.h:235-237 | At the first difference before a NUL the string with the smaller character is sorted first |
| `VectorSort.StringLonger` | src/flatbuffers_common_reader.h:235-237 | Without such a difference the shorter string is sorted first |
| `VectorSort.StringDiffEqual` | src/flatbuffers_common_reader.h:235-237 | The length-aware comparison finds strings equal that are as long and equal before a NUL |
| `VectorSort.StrCmpDiffers` | src/flatbuffers_common_reader.h:239 | Of two C strings that differ the one with the smaller character at the first difference comes first |
| `VectorSort.StrCmpLonger` | src/flatbuffers_common_reader.h:239 | Of two C strings one of which begins the other the shorter comes first |
| `VectorSort.FindByScalar` | src/flatbuffers_common_reader.h:262-263 | In a vector in ascending order, the lowest index at which the key is the number asked for, or none |
| `VectorSort.LowestUnique` | src/flatbuffers_common_reader.h:290-299 | There is one lowest matching index or none, so that find and scan agree |
| `VectorSort.FoundIfPresent` | src/flatbuffers_common_reader.h:242-261 | Sorting changes where a match is found, never whether one is |
| `VectorSort.Scan` | src/flatbuffers_common_reader.h:290-299 | The lowest matching index of a range, or not found |
| `VectorSort.ScanBack` | src/flatbuffers_common_reader.h:300-308 | The highest matching index of a range, or not found |
| `VectorSort.StringOrder` | src/flatbuffers_common_reader.h:235-237 | The comparison strings are sorted by is a total order, embedded zeros included |
| `VectorSort.StrCmpOrder` | src/flatbuffers_common_reader.h:239 | The comparison strings are found by without a length is a total order |
| `VectorSort.DiffThenCmp` | src/flatbuffers_common_reader.h:235-239 | What the sort puts first does not come later for strcmp |
| `VectorSort.SortedForStrCmp` | src/flatbuffers_common_reader.h:235-239 | A vector sorted by the length-aware comparison is sorted by strcmp |
| `VectorSort.OrdersDiffer` | src/flatbuffers_common_reader.h:235-239 | The two comparisons differ on an embedded zero |
| `VectorSort.Relocated` | src/flatbuffers_common_reader.h:423-430 | An offset moved by some elements and corrected by their size leads to the same place modulo 32 bits |
| `JsonText.PrintedParses` | src/json_parser.c:890-917 | For every byte string, parsing its printed form gives the same bytes and stops exactly at the closing quote, whatever follows |
| `JsonText.EscapeReadsBack` | src/json_parser.c:276-390 | Every escape the printer writes reads back as its byte |
| `JsonText.Utf8RoundTrip` | src/json_parser.c:223-248 | The emitted bytes decode to the same code point for exactly the Unicode scalar values; surrogate halves come out as three bytes |
| `JsonText.Utf8Unique` | src/json_parser.c:223-248 | Every well-formed UTF-8 sequence is the one the parser emits for its code point |
| `JsonText.PairsAreCodePoints` | src/json_parser.c:250-258 | Surrogate pairs map one to one into U+10000 to U+10FFFF and decode to four bytes |
| `JsonText.CodePointsArePairs` | src/json_parser.c:250-258 | Every code point from U+10000 to U+10FFFF is some pair |
| `JsonText.EscapedHalf` | src/json_parser.c:321-353 | An escaped pair gives the four bytes of its code point; any other half, low, or high before the end, plain text or another escape, gives three bytes no UTF-8 decoder takes |
| `JsonText.ShortEscapes` | src/json_parser.c:354-390 | The eight letters of section 7 of RFC 8259 stand for their bytes, and seven of them are printed |
| `JsonText.LongEscapes` | src/json_printer.c:196-234 | Any other control character is printed by its two hexadecimal digits |
| `JsonText.DigitsMean` | src/json_parser.c:276-353 | Two hexadecimal digits of either case give a byte, four a code point |
| `JsonText.EscapesExactly` | src/json_parser.c:276-390 | An escape is taken exactly when it is a letter of the standard, x with two digits or u with four |
| `JsonText.PairRead` | src/json_parser.c:321-353 | Two escaped surrogate halves, a high one and directly behind it a low one, read as their one code point in four bytes |
| `JsonText.HalfRead` | src/json_parser.c:321-353 | Any other escaped half is taken alone |
| `JsonText.ErrorsReported` | src/json_parser.c:65-94 | Behind any printed text: its end, a control character, and a backslash that begins no escape are reported where they are |
| `JsonText.PrintedIsText` | src/json_printer.c:235-260 | What is printed holds no control character, and no quote that is not behind a backslash |
| `JsonParser.Parser.BuildString` | src/json_parser.c:890-917 | The loop builds the bytes the text stands for and stops behind the closing quote, or reports the first error where it is |
| `JsonParser.Parser.StringPart` | src/json_parser.c:65-94 | Stops at a quote or backslash, or reports an unterminated string or a control character |
| `JsonParser.QuotedReadsBack` | src/json_parser.c:890-917 | Printed text found anywhere is parsed to its bytes and consumed exactly |
| `JsonPrinter.Printer.PrintString` | src/json_printer.c:235-260 | Appends the quoted and escaped form of the bytes, flushes or not, in full chunks only |
| `JsonPrinter.Printer.Print` | src/json_printer.c:187-195 | Appends exactly the bytes printed, leaves the reserve free, and hands full chunks only to the file |
| `JsonPrinter.Printer.PrintEx` | src/json_printer.c:167-185 | The chunk loop ends and appends exactly the bytes printed |
| `JsonPrinter.Printer.PrintIndent` | src/json_printer.c:349-359 | Appends exactly the indentation |
| `JsonPrinter.Printer.Flush` | src/json_printer.c:1345-1362 | Flushing changes where bytes are, never what was printed; a full file chunk leaves only the spill; what is left is terminated |
| `JsonPrinter.Printer.FlushDynamic` | src/json_printer.c:1413-1437 | A full memory buffer doubles and keeps its contents |
| `Syntax.CompiledFrom` | src/syntax_compile.c:69-236 | On the characters and numbers alone: which token lists are accepted, what each token is compiled to, what is charged, and which run past the output buffer |
| `Syntax.SymbolsMean` | src/syntax_compile.c:41-59 | The 17 symbols stand for their commands, and no other character for any |
| `Syntax.TokenMeans` | src/syntax_compile.c:69-236 | What one token is compiled to: value, format, bits and repeat of a number, the command of a symbol whose pin is named and free, the bytes of a literal |
| `Syntax.CompilesExactly` | src/syntax_compile.c:69-236 | Whatever the repeats: accepted are exactly the error-free programs whose 32-bit charge stays below 1024 and whose instructions fit the output buffer after every token; run past the buffer do exactly those where a number or known symbol finds it full |
| `Syntax.Accepts` | src/syntax_compile.c:69-236 | With sensible repeats the compiler accepts exactly the error-free programs charged below 1024 slots, emits what they mean, and stays in its buffer |
| `Syntax.ZeroRepeatsOverrun` | src/syntax_compile.c:210-229 | Zero repeats are charged nothing, and enough of them run past the output buffer |
| `Syntax.WrappedChargeAccepted` | src/syntax_compile.c:210-219 | A repeat that wraps the 32-bit charge is accepted |
| `SyntaxRun.WrappedRunsPast` | src/syntax_run.c:53-74 | The run of that program, unless its first write reports an error, goes past the slots |
| `Syntax.FewStayInside` | src/syntax_compile.c:224-229 | No program of at most 1024 instructions runs past the output buffer, whatever its repeats |
| `SyntaxRun.AcceptedFitsExactly` | src/syntax_compile.c:210-219 | Accepted with results that fit the slots are exactly the tokens that compile and ask for fewer than 1024 slots: the repeats of writes and reads, at least one each, and one for every other instruction |
| `SyntaxRun.ProgramSlots` | src/syntax_run.c:38-74 | The slots the results of a program take are those its tokens ask for |
| `SyntaxRun.AcceptedFits` | src/syntax_compile.c:210-229 | The results of an accepted sensible program fit the slots |
| `SyntaxRun.RunIsPrefix` | src/syntax_run.c:187-217 | The slots a run fills are a prefix of the repeat expansion, all of it unless the last slot reports an error or the slots were overrun; the calls made are exactly those of the instructions carried out |
| `SyntaxRun.CarriedOut` | src/syntax_run.c:187-217 | A run carries out the whole program if and only if its results fit the slots, no instruction is refused and none before the last leaves an error on its last slot |
| `SyntaxRun.FittingRun` | src/syntax_run.c:38-74 | Of a program whose results fit, exactly the reads are refused at which the repeats of the first instruction reach the limit; its run never uses up the slots |
| `SyntaxRun.RefusedExactly` | src/syntax_run.c:38-58 | Short of wrap-around, refused are exactly the writes whose slots would reach the last one, and the reads for which the repeats of the first instruction would |
| `SyntaxRun.EndsWhereRefused` | src/syntax_run.c:53-58 | A run ends at a refused instruction, if not before |
| `SyntaxRun.PastExactly` | src/syntax_run.c:38-74 | A run goes past the slots if and only if some instruction is not refused and does not fit behind those before it, none of which is refused or leaves an error on its last slot |
| `SyntaxRun.LongDelayThenRead` | src/syntax_run.c:53-58 | A program whose two results fit, and whose run on any device carries out the first instruction only |
| `SyntaxRun.LoggedCalls` | src/syntax_run.c:38-143 | Every instruction carried out makes exactly its own calls, in order: its repeats for writes, reads, clock ticks and bit reads, one for any other; on one slot after the other for writes and reads, on one slot for the rest; and nothing else is called |
| `SyntaxRun.LoggedReports` | src/syntax_run.c:38-143 | Every slot of an instruction carried out holds what the last call on it reported, only the data of a pin read or voltage, nothing for a delay or a pin driven |
| `SyntaxRun.AnnouncedCalls` | src/syntax_run.c:64-73 | A call announces a next instruction only on the last repetition of a read that is not last |
| `SyntaxRun.ReadsAnnounce` | src/syntax_run.c:64-73 | Every read that is carried out at all and is not last announces the next instruction on its last repetition |
| `SyntaxIo.Io.Compile` | src/syntax_compile.c:69-236 | The loop over the fixed buffer stores what the tokens spell and clears the rest, or reports an error or a write past the end, exactly when they say so |
| `SyntaxIo.Io.Run` | src/syntax_run.c:187-217 | For every compiled program: slots, reports and calls are exactly those of the run as specified on values, which ends with the program, at an error, with the last slot, or past it |
| `SyntaxIo.Io.RunRead` | src/syntax_run.c:53-74 | A read fills one slot per repeat, each with the report of its call, is refused on the repeats of the first instruction, or goes past the slots |
| `SyntaxIo.Io.RunWrite` | src/syntax_run.c:38-51 | A write fills one slot per repeat, each with the report of its call, or is refused when they do not fit |
| `MscDisk.RunKeeps` | src/msc_disk.c:172-213 | Over every run of core 0 and the host, the handshake invariant holds |
| `MscDisk.FromStart` | src/msc_disk.c:172-213 | Between a NOT READY reply and any later ready reply there is a UNIT ATTENTION; core 0 returns only when the host was told |
| `MscDisk.EjectAnswered` | src/msc_disk.c:172-187 | While the host only polls, a waiting eject is acknowledged if and only if the medium is neither out, nor on its way out, nor ejected by the host; then within two polls, otherwise never |
| `MscDisk.EjectCallAnswered` | src/msc_disk.c:360-381 | A call to eject has nothing to do or is answered by the polls if and only if the medium is out, or is in and the host has not ejected it |
| `MscDisk.EjectStuck` | src/msc_disk.c:360-381 | An eject that waits for a medium that is out or on its way out waits for ever, whatever the host does |
| `MscDisk.EjectEnds` | src/msc_disk.c:235-251 | In every other case a load and two polls by the host end the wait |
| `MscDisk.SecondEjectStuck` | src/msc_disk.c:360-381 | From the start, two ejects in a row with one poll between them: the second waits for ever |
| `MscDisk.HostEjectedFirst` | src/msc_disk.c:360-381 | From the start, an eject raised after the host has ejected and before the next poll is acknowledged by no number of polls |
| `MscDisk.InsertAnswered` | src/msc_disk.c:172-187 | While the host only polls, a waiting insert is acknowledged if and only if the medium is out, on its way out, or ejected by the host; then within two polls, otherwise never |
| `MscDisk.InsertCallAnswered` | src/msc_disk.c:360-368 | A call to insert is answered by the polls if and only if the medium is out, on its way out, or ejected by the host |
| `MscDisk.InsertWhileIn` | src/msc_disk.c:360-368 | From the start, an insert while the medium is in is acknowledged by no number of polls |
| `MscDisk.HostViewChanges` | src/msc_disk.c:235-251 | The host takes the medium out by an eject and puts it back by a load, and by no other command; the next poll takes the eject in |
| `MscDisk.OutAndIn` | src/msc_disk.c:172-213 | An eject and an insert by core 0 with the host polling: NOT READY twice, UNIT ATTENTION once, ready again, both calls returned |
| `MscDisk.HostOutAndBack` | src/msc_disk.c:235-251 | The host's own eject shows NOT READY from the next poll on; taken back before a poll it was never there |
| `MscDisk.Variables.TestUnitReady` | src/msc_disk.c:172-213 | The poll as an atomic step on the shared variables, with the sense it reports |
| `MscDisk.Variables.InsertOrEject` | src/msc_disk.c:360-381 | With the host running between any two accesses, a call that returns has been answered by a reply given for it, or had nothing to eject; one that has not returned has raised its request and waits unacknowledged |

## Left out

- Union members that are structs, and buffers rooted in a struct: inline structs are fields of a size and alignment, as scalars are.
- Limits.SafeExactly: takes it that no other field of a table with a field that is not readable is required; such a field may have no accepted bytes at all, as a required table of its own type, and then nothing is accepted to be unsafe.
- Nesting.AcceptedNests: the condition is on the schema and sufficient; a schema with vectors whose tables never lead far enough to meet one on the last level nests within the limit as well.
- Soundness.AcceptedIsSafeToRead: a failed assertion of an accessor counts as a fault, as with assertions on; with them off, the null vector behind it is dereferenced.
- RoundTrip.BuildBuffer: the order in which a table's fields are added is chosen by its type and values, so that two equal tables of one type are built alike (`RoundTrip.InAnyOrder` shows that the order does not matter); children are built while their parent is open, a union without a value is not built, and neither are forced defaults, which are `Frames.FrameStack.TableAdd` alone.
- Nested, size-prefixed and identified buffers: a builder makes one top-level buffer.
- Buffers of 2 GiB and more: the layout claims hold below that, the size signed table offsets span.
- Verifier.VerifyTableHeader: sums such as `k + offset_size` do not wrap.
- Pointers are 32 bits wide in the reader's address arithmetic.
- Allocation failures, except in the reference map's resize. Stacks and pools grow on demand; the data stack limits of `refresh_ds` and the reservation of `reserve_fields` are not modelled.
- Frames.FrameStack.Append: does not model `flatcc_builder_vector_push`, whose own test lets one element more than the maximum through to the check at the end.
- Frames.FrameStack: hash updates are an arbitrary function; the two header words of a vtable are written only when it is requested.
- VtableCache.Cache.CreateCached: emits before it links the new descriptor, where the source links first; the two agree when emission succeeds, and nothing is promised when it fails.
- BuilderOps.Builder: user frames, structs as stack containers, type vectors and union vectors as stack containers, and cloning; a union vector is created from its finished lists.
- Frames.FrameStack.TableAdd: takes it that the payload stays below the 64K a vtable entry can express. The source has no refusal to model here: `push_ds_field` goes on with a truncated entry, and the assertion at the end of the table fails (src/builder.c:279-284, src/builder.c:1358).
- Frames.FrameStack.TableAddOffset: likewise.
- Emitter.EmitterState: pages are values in a memory indexed by address, so freeing leaves garbage behind; `flatcc_emitter_clear` and the return pointer of a copy over several pages are not modelled.
- Refmap.Refmap: the inline minimum table is a table like any other.
- VectorSort.HeapSort: takes it that nothing compares less than itself, which is so of every comparison in the source, and which the sort needs to end; keys are a function of the element value or offset target, and sorting is not claimed stable.
- Spsc.RunKeeps: the barriers appear as the order of steps and as what a load may see; the hardware memory model beyond that is not modelled, nor a second producer in the UART interrupt.
- SpscCalls.Queue: the blocking calls, which spin until the other core makes room.
- RxInput.ServiceInterface: the 64-byte bounce buffer holds what the USB stack hands over, whose own buffer has 64 bytes (src/tusb_config.h:106).
- UsbTx.Transmitter.Service: a port takes what is written to it; frames are handed over only while none is pending, as the toolbar code checks before it renders; the port settings are parameters of each call.
- JsonPrinter.Printer: the fixed-buffer printer, which drops its contents on overflow, and every print other than strings, raw text and indentation.
- JSON numbers, base64, symbols, unions and generic values.
- Syntax.Accepts: the command line arrives cut into tokens; `ui_parse` and `cmdln` are not part of this model, nor are post-processing and the messages.
- SyntaxIo.Io.Run: protocol and pin routines are one arbitrary function of everything asked so far and of their slot; delays take no time; of a run past the slots only that it happens is said.
- MscDisk.Variables.InsertOrEject: the wait has a limit, since the source's own may not end.
- Disk reads, writes and SCSI commands other than the poll and start-stop.
- Hardware, displays, modes, the monitor, the generated per-schema code and the Python tools.
