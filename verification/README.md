# A verified model of xahc

xahc is a toolchain for Xahau Hooks: a simulator of the Hook host API, a guard pass and a linter for
the compiled WebAssembly, a library of hook code in C, and an x402 payment facilitator in JavaScript.
This project models the parts of it that are decided by code rather than by a library or a node, and
proves what those parts are for. `dafny verify dfyconfig.toml` checks everything.

The six areas, and the modules that hold them:

- **Serialized objects** (`src/sto.rs`, `src/sim.rs`). `FieldTree` is the format as a tree with the
  bytes it is written as; it is the reference both parsers are judged against. `FullWalker` holds
  `parse_field` and `parse_fields`, `LightWalker` holds `get_stobject_length`, `WalkerAgreement` says
  exactly where the two agree on written trees, `WalkersOnBytes` when they agree on arbitrary bytes,
  `WalkerBounds` what the full walker's end is worth, `Bridges` which bytes are a bridge. `StoApi` holds
  the `sto_*` host functions on top of the light walker, `StoExact` says what they answer on any bytes,
  and `ApiRoutes` and `ApiTables` relate them to the slot functions on top of the full one.
- **Slots** (`src/sim.rs`). `Slots` is the table with its FIFO free list and skipping counter;
  `SlotRuns` is what every run of slot calls keeps, `SlotValues` what a slot holds.
- **Emitted payments** (`include/xahc/emit/payment.h`). `Payment` holds both builders, which write a
  buffer through a bumped pointer and patch the fee afterwards; the parsers above read the bytes back.
- **Guard pass and lint** (`src/guardpass.rs`, `src/lint.rs`). `WasmTree` is the instruction tree and
  the operator stream emitted from it (`loop` and `end` as in section 5.4.1 of the WebAssembly Core
  Specification 1.0). `GuardPass` is the move within one loop body, `GuardRewrite` the pass over
  whole trees, `GuardArena` the same done in place on an arena of sequences, `ByteAdjacency` the
  scanner over the stream, `GuardLint` the lint's own notion of "guard first", `LintStream` the
  same read off the stream, `CallGraph` the memoized depth-first search of the stack check.
- **Period budget** (`examples/agent_guardrail_stateful.c`, `x402-xahau/server.mjs`). `Guardrail` is
  one run of the hook, `GuardrailRuns` what any sequence of payments can spend, `GuardrailWindows` when
  that bound is PLM per period that fits into a window, `PolicyReadout` the facilitator's prediction.
- **Facilitator** (`x402-xahau/server.mjs`). `ReplayStore` and `Settlement` are the in-memory store
  and concurrent `settle` calls over it as a transition system, `SettlementTimely` says how far a call
  gets and what a late release does, `SettlementReceipts` who is handed a receipt; `RedisReserve` is
  `reserve` over atomic Redis commands; `Decimal`, `TokenValue` and `TokenExact` are decimal amounts; `TokenBucket`
  is the shared rate limiter; `Multisig` is on-ledger authorization; `JsonText`, `CanonicalJson`,
  `CanonicalExact`, `Utf8` and `SignedReceipt` go from a receipt to the bytes that are signed, and
  `Utf8Reader`, `JsonReader` and `ReceiptReader` go back.

Code that walks with a cursor, fills a buffer or updates fields is a method or a class here, proved
against a function that says what it answers; the theorems are about those functions. `Wrappers`,
`Bytes`, `Sequences`, `Arithmetic` and `ReturnCodes` are shared helpers.

Where the source and what is said about it differ, the model follows the source:

- The comment on `parse_field` says that it never reads past `end`. It does: `WalkerBounds.ReadsPastEnd`
  gives a header, a blob length, a path set and an issue that it reads from behind `end`. What holds is
  that no byte from `end` on changes an answer (`WalkerBounds.OnlyBytesBeforeEndDecide`), and that a call
  which fetches one fails (`ReachPastEndFails`).
- Without fixHookAPI20251128 `sto_subarray` skips one byte of a two-byte array header. It then agrees with
  the slot route at every index exactly when the header is one byte long (`ApiRoutes.RoutesAgree`);
  `HookParametersMisread` and `MisreadSample` are the failing side.
- Over ledgers `f..l` a run of the hook may let out more than `PLM * (floor((l - f) / PER) + 1)`. It cannot,
  whatever is paid from `f` on, exactly when LIM is zero, or no stored period is open at `f`, or the open
  one has no headroom left, or it ends (at ledger `e`) after `l`, or `floor((l - e) / PER)` is smaller than
  `floor((l - f) / PER)`. That is `GuardrailWindows.WithinFittingPeriodsIff`, and
  `WindowWithinFittingPeriodsIff` for windows inside longer runs; `NearlyTwicePlmInTwoLedgers` and
  `TwicePlmInTwoLedgers` are instances of the failing case.
- The facilitator's comment says that the hook rolls back on any stored value that is not 16 bytes long.
  Of such values it rolls back exactly on the shorter ones (`PolicyReadout.CorruptIffShort`); a longer one
  reads as a negative code, and the hook opens a fresh period (`OverlongSlotIsFresh`,
  `OverlongSlotAccepts`).
- A submit that proves itself unapplied releases its id whoever holds it by then. The binding it takes away
  can be another call's exactly when its own has run out (`SettlementTimely.ReleasesAnotherIffLate`), and
  then the id can be submitted again while that call is in flight (`UntimelySettlesTwice`).
- The facilitator's comment says every accepted validity window stays within the replay TTL; that
  holds exactly when one ledger and the margin fit into it (`Settlement.WindowFitsTtl`).
- An explicitly named slot may be one that was freed before. Once its number is the oldest in the queue,
  an automatic allocation returns it although it is occupied, and never otherwise
  (`SlotRuns.HandsOutOccupied`, `OverwritesAfterNamingFreed`).
- The comment on the Redis rollback says that it never deletes a different live binding. It can, exactly
  when the caller's own binding has run out before the deletion (`RedisReserve.DeletesAnotherIffLate`,
  and `DeletesAnotherAfterPauseIff` over runs); `LateRollbackDeletesAnother` is one such course.

## Model

| member | source | states |
|---|---|---|
| FullWalker.ParseField | src/sto.rs:520-582 | the cursor-driven parser finds the field that `FieldAt` says stands there, for every byte string, offset and end, and fails where there is none |
| FullWalker.ParseFields | src/sto.rs:585-594 | the loop collects exactly the fields of `start..end` in order, or fails with the first that cannot be read |
| FullWalker.FieldsTile | src/sto.rs:585-594 | whatever bytes are parsed successfully, the fields lie end to end: the first starts at `start`, each next one where the last ended, and the last ends at `end` |
| FullWalker.ParseAfterPrint | src/sto.rs:520-582 | parse after print: a written tree, standing anywhere in any buffer, parses to its type, code and extents, at any nesting depth and for 1-, 2- and 3-byte lengths |
| FullWalker.ParseAllAfterPrint | src/sto.rs:585-594 | a written list of trees parses into exactly those fields, tiling the buffer |
| WalkerBounds.FieldWithin | src/sto.rs:519-582 | cutting the buffer off at `end` changes no answer of `parse_field`, for any bytes, offset and end |
| WalkerBounds.FieldsWithin | src/sto.rs:584-594 | nor any answer of `parse_fields` |
| WalkerBounds.OnlyBytesBeforeEndDecide | src/sto.rs:519-594 | two buffers that agree before `end` hold the same fields there, however they differ behind it |
| WalkerBounds.ReadsPastEnd | src/sto.rs:519-561 | "never reading past `end`" is false: inputs on which a header, a blob length, a path set and an issue are read from behind it |
| WalkerBounds.ReachPastEndFails | src/sto.rs:519-582 | every call that fetches a byte from `end` on, at whatever depth, answers that there is no field |
| WalkerBounds.LeafReachExact | src/sto.rs:493-561 | for a leaf that decodes, nothing is fetched from `e` on if and only if the bytes before `e` alone give its header and its end: the exact condition for header, amount byte, length prefix, issue and path set |
| LightWalker.GetStobjectLength | src/sto.rs:155-357 | the light walker, with its depth limit, 1024-child loop and end checks, returns what `LightAt` says for every input |
| LightWalker.WalkPaths | src/sto.rs:284-331 | the nested path-set loop reaches the offset after the terminator or fails, as the recursive reading of a path set says |
| LightWalker.WalkChildren | src/sto.rs:339-353 | the child loop stops at the first end marker found after a child and fails after 1024 children |
| WalkerAgreement.LeafAgreement | src/sto.rs:192-300 | on a written leaf the light walker reports the tree's extents if and only if the leaf is in the common fragment and, for an empty blob, a byte follows |
| WalkerAgreement.PayloadAgreement | src/sto.rs:192-300 | type by type, the light walker measures the payload of a written leaf correctly exactly on that fragment (native-amount test, path sets, refused types) |
| WalkerAgreement.LightPathsRead | src/sto.rs:284-331 | the native path-set loop reads a written path set to its end if and only if no path but the last is empty |
| WalkerAgreement.LightAfterPrint | src/sto.rs:155-357 | a tree of the fragment is read exactly down to the depth limit and refused beyond it |
| WalkerAgreement.LightChildrenAfterPrint | src/sto.rs:339-353 | a non-empty child list is walked to its end marker if and only if it has at most 1024 children, none too deep |
| WalkerAgreement.ContainerAgreement | src/sto.rs:339-353 | a container is read in step with the tree if and only if it has 1 to 1024 children and respects the depth limit: empty containers never are |
| WalkerAgreement.WalkersAgree | src/sto.rs:155-357 | two walkers agree: on the common fragment both succeed with the same type, code and end, and the light payload is the full content minus any length prefix |
| WalkersOnBytes.LightImpliesFull | src/sto.rs:155-357 | on any bytes: a field that the light walker accepts without meeting a named difference along its walk is accepted by the full walker with the same type, code, payload end and end |
| WalkersOnBytes.ChildrenOnBytes | src/sto.rs:339-353 | the same for the children of a container: the marker after the last child is the same byte for both |
| WalkersOnBytes.UnsteadyLeafDiffers | src/sto.rs:192-300 | the named differences are real: a leaf that meets one, other than a path set read as a blob, never ends where the full walker says |
| WalkersOnBytes.SelfEndedDiffers | src/sto.rs:339-353 | nor does a container that begins with its own end marker: the full walker ends it there, the light walker later |
| WalkersOnBytes.HeadIff | src/sto.rs:155-190 | on any bytes the light walker reads the header that the full walker reads, canonical or not, if and only if a byte follows it within the end |
| WalkersOnBytes.LeafFitsIff | src/sto.rs:192-337 | on any bytes: a leaf that the full walker reads up to the end is read to the same end if and only if its type is not refused, no named difference applies, a blob has a byte after its length byte, and the path-set loop ends |
| WalkersOnBytes.FullImpliesLight | src/sto.rs:155-357 | on any bytes: a field that the full walker accepts, along which all leaves fit and every container has 1 to 1024 children within the depth limit, is accepted by the light walker as the same field |
| Bridges.BridgeFieldIff | src/sto.rs:306-333 | a field of type 25 is read if and only if two doors, each a length-prefixed account that may be empty and an issue of 20 or 40 bytes, follow its header within the end, and type 240 serialization is on; the payload is those bytes |
| StoApi.StoValidate | src/sto.rs:360-377 | the loop answers what `Validated` says, which `StoExact.ValidatedIff` states as a tiling by at most 1024 fields; short buffers answer by amendment |
| StoApi.StoSubfield | src/sto.rs:381-410 | validates first, then answers the extent of the first field with the code, arrays whole and everything else as payload, with the source's error codes |
| StoApi.StoSubarray | src/sto.rs:415-458 | unwraps an array header by amendment, then answers the extent of element `index`, with the source's error codes |
| StoExact.ValidatedIff | src/sto.rs:360-377 | on any bytes, without the loop: valid if and only if there are at most 1024 offsets from 0 to the length at each of which the light walker reads a field that ends at the next |
| StoExact.SubfieldIff | src/sto.rs:381-410 | on any bytes: an extent if and only if the buffer is so tiled and some field carries the code, and then that of the first; DOESNT_EXIST, PARSE_ERROR and TOO_SMALL each under its exact condition |
| StoExact.SubarrayIff | src/sto.rs:415-458 | on any bytes: the `i`-th field behind the header if and only if the buffer is valid, closed and has one there; DOESNT_EXIST and TOO_SMALL under their exact conditions, PARSE_ERROR for the rest |
| StoApi.ListWalked | src/sto.rs:366-376 | a written list of fields is walked to its very end within the field limit |
| StoApi.ListFind | src/sto.rs:394-409 | in a written list the first field with the code is found at its own offset; without one the answer is DOESNT_EXIST |
| StoApi.ListNth | src/sto.rs:443-457 | in a written list element `i` is found at its own offset; from the length on the answer is DOESNT_EXIST |
| ApiRoutes.SubfieldRoutes | src/sto.rs:381-410 | on one written object `sto_subfield` and `slot_subfield` open the same array: its whole bytes, and a slot on its elements |
| ApiRoutes.StoElement | src/sto.rs:415-458 | on a written array of objects `sto_subarray` delimits every element `i` at its offset, and answers DOESNT_EXIST from the length on, if and only if it skips the whole header: one byte, or two with fixHookAPI20251128 |
| ApiRoutes.HookParametersMisread | src/sto.rs:432-441 | with the amendment off element 0 of any written HookParameters array, code (15, 19), is answered as (1, 3) |
| ApiRoutes.MisreadSample | src/sto.rs:669-673 | one such array byte by byte: (2, 6) with the amendment, (1, 3) without |
| ApiRoutes.SlotElement | src/sim.rs:752-778 | on the slot of that array `slot_subarray` reaches element `i`, header and end marker left off, DOESNT_EXIST from the length on |
| ApiRoutes.ElementsAgree | src/sto.rs:432-441 | on the bytes of one array, at any place of a buffer, the two routes agree at every index if and only if the whole header is skipped |
| ApiRoutes.RoutesAgree | src/sim.rs:752-810 | two API routes open the same array of one written object; they agree at every index if and only if `sto_subarray` skips the whole header. Agreeing means: both fail with DOESNT_EXIST, exactly from the length on, or the bytes of the one are header, slot bytes and end marker of the other, at the same place. Otherwise index 0 differs |
| ApiTables.TableRoutesAgree | src/sim.rs:752-810 | the slot route as two host calls on a table: no room, a bad number and an unknown field code are answered as the source does and change nothing; past those, the second call answers like the byte route at every index (DOESNT_EXIST together, else the same element, stored under a number in 1..255) if and only if the whole header is skipped |
| Slots.Slots.GetFree | src/sim.rs:172-189 | the free list first, else the counter moved past occupied numbers; None past the last slot; the new table is the specification's |
| Slots.Slots.NoFree | src/sim.rs:167-169 | true exactly when 255 numbers are occupied |
| Slots.Slots.SlotClear | src/sim.rs:652-660 | empties the slot and queues its number last, or changes nothing and answers DOESNT_EXIST |
| Slots.Slots.SlotSet | src/sim.rs:683-749 | the new table and answer of the specification, checks in the source's order |
| Slots.Slots.SlotCount | src/sim.rs:663-672 | the number of fields of an array slot, changing nothing |
| Slots.Slots.SlotSubarray | src/sim.rs:752-778 | the new table and answer of the specification, checks in the source's order |
| Slots.Slots.SlotSubfield | src/sim.rs:781-810 | the new table and answer of the specification, checks in the source's order |
| Slots.Slots.MetaSlot | src/sim.rs:830-849 | the new table and answer of the specification, checks in the source's order |
| Slots.AdvanceSkips | src/sim.rs:176-183 | the counter only skips numbers that are occupied |
| SlotRuns.RunKeepsInv | src/sim.rs:159-190 | in every run of slot calls occupied and queued numbers stay in 1..255 and each of 1..counter is occupied or queued |
| SlotRuns.TakeFreeSucceeds | src/sim.rs:172-189 | after a passed `no_free` check `get_free` never returns None, and its number is a slot |
| SlotRuns.TakeFreeIff | src/sim.rs:172-189 | on any table a number is found if and only if one was freed or some slot past the counter is unoccupied; else NO_FREE_SLOTS, and nothing is stored |
| SlotRuns.StoresIff | src/sim.rs:683-849 | a slot call stores something if and only if what it asks for is there and its destination is a slot number, or 0 while not all are taken; then exactly that entry, at the number answered; otherwise the table is unchanged |
| SlotRuns.ClearsIff | src/sim.rs:652-660 | a slot is given back if and only if it is occupied, and its number waits behind those freed before |
| SlotRuns.Refusals | src/sim.rs:683-849 | which code is answered where more than one thing is wrong, call by call |
| SlotValues.SubfieldHolds | src/sim.rs:781-810 | on a slot that holds a written list, anywhere in its storage: `slot_subfield` opens the first field with the code, of any type, as its own bytes, kind and code; DOESNT_EXIST if and only if there is none |
| SlotValues.ElementHolds | src/sim.rs:752-778 | the same for `slot_subarray` and the index |
| SlotValues.NestedHolds | src/sim.rs:752-810 | the slot of a container holds its children, so lookups compose |
| SlotValues.CountHolds | src/sim.rs:663-672 | `slot_count` answers the length of the list an array slot holds, NOT_AN_ARRAY and DOESNT_EXIST exactly otherwise |
| SlotRuns.AllocationFailsOnlyWhenFull | src/sim.rs:741-746 | over every run from the empty table, NO_FREE_SLOTS is answered only when all 255 are occupied |
| SlotRuns.HandsOutOccupied | src/sim.rs:172-175 | the number handed out is occupied if and only if the oldest queued number is |
| SlotRuns.RunKeepsClean | src/sim.rs:159-190 | runs that never name a queued number keep the queue free of occupied numbers and of repetitions |
| SlotRuns.FreshUnlessFreedIsNamed | src/sim.rs:172-189 | after such a run an automatic slot is always an unoccupied one |
| SlotRuns.OverwritesAfterNamingFreed | src/sim.rs:172-175 | the condition is needed: a three-call run after which an occupied slot is handed out |
| Payment.BuildPayment | include/xahc/emit/payment.h:71-109 | for all arguments the buffer holds the serialization of twelve fields and then the details; a host failure rolls back; nothing past the returned length or byte 270 is written |
| Payment.BuildPaymentIou | include/xahc/emit/payment.h:156-198 | the same for an issued amount: 172 bytes and the details, nothing past byte 310; a failing `float_sto` rolls back too |
| Payment.PatchFee | include/xahc/emit/payment.h:105-107 | overwriting the eight bytes behind the fee header turns the buffer into the serialization with that fee and touches nothing else |
| Payment.PaymentReadsBack | include/xahc/emit/payment.h:80-96 | both walkers read the bytes into exactly the twelve fields, the codes ascend strictly, and `sto_subfield` returns each value |
| Payment.PaymentValues | include/xahc/emit/payment.h:80-96 | the values are the arguments: tags, ledger window (modulo 2^32), amount, fee, both accounts |
| Payment.PaymentByCode | include/xahc/emit/payment.h:80-96 | field code by field code, by number: `sto_subfield` on the built bytes delimits type, flags, tags, sequence, window, amount, fee, 33 zero bytes of key, sender and destination |
| Payment.DropsReadBack | include/xahc/emit/payment.h:88-107 | drops and fee read back from the bytes equal the arguments if and only if they are below 2^62 |
| Payment.DropsRoundTrip | include/xahc/otxn.h:46-51 | the hook's own reading of a native amount inverts the builder's writing exactly below 2^62, and truncates beyond |
| WasmTree.ContainsIsCollected | src/lint.rs:353-364 | the scan for a call and the collection of call edges see the same calls, at every depth |
| GuardPass.HoistPermutes | src/guardpass.rs:177-236 | a loop body is only permuted: unchanged, or one block of two constants, the guard call and its drop jumps ahead of what stood before it, all else in order |
| GuardPass.MoveShape | src/guardpass.rs:192-233 | what is moved is two literals, the first guard of the body and its drop, past at least one call or transfer |
| GuardPass.OutcomeIff | src/guardpass.rs:177-236 | over the instructions: moved if and only if the first guard call at the top level comes after a transfer and right after two constants; at the head if and only if no transfer precedes it; skipped if and only if one does and the constants do not; unverified or no guard if and only if it is called only further inside, or nowhere |
| GuardPass.MovesBlock | src/guardpass.rs:204-235 | a late guard takes to the front exactly its two constants and the drop right behind it, if there is one |
| GuardPass.StartIsAlreadyLed | src/guardpass.rs:225-227 | the "starts at zero" exit is never taken by a body whose guard does not lead already |
| GuardPass.HoistTwice | src/guardpass.rs:177-236 | hoisting a body a second time changes nothing |
| GuardRewrite.RewriteTwice | src/guardpass.rs:35-82 | the pass is idempotent on every instruction tree |
| GuardRewrite.LoopsOfRewrite | src/guardpass.rs:95-110 | the loops of the result are the loops of the input, in order, each one done |
| GuardRewrite.RewriteKeepsOps | src/guardpass.rs:35-82 | the emitted code holds the same operators after the pass, each as often |
| GuardRewrite.DoneIsAdjacent | src/guardpass.rs:177-236 | after the pass a loop begins with const, const, guard if and only if the pass moved it or it began so before |
| GuardRewrite.GateAfterPass | src/guardpass.rs:271-330 | after the pass the gate on the emitted operators passes a loop if and only if its first guard call came late, right behind two constants, or the loop began with const, const, guard before |
| GuardRewrite.SecondRunMovesNothing | src/guardpass.rs:35-82 | a second run moves nothing and reports every moved loop as fine |
| GuardArena.LocalFunction.CollectLoops | src/guardpass.rs:95-110 | the recursive collection over the arena returns the ids of all loop bodies in emission order |
| GuardArena.LocalFunction.ContainsGuard | src/guardpass.rs:139-156 | true exactly when a guard call occurs in the sequence or below it |
| GuardArena.LocalFunction.HoistGuardInSeq | src/guardpass.rs:177-236 | draining and inserting in place leaves exactly the hoisted body in that sequence, every other sequence as it was, and returns the specified outcome |
| GuardArena.LocalFunction.Reposition | src/guardpass.rs:48-79 | hoisting the collected sequences one after the other, in place, leaves the rewritten tree, and the report counts the outcomes of the original loops |
| GuardArena.TallyCounts | src/guardpass.rs:55-75 | each figure of the report is how often its outcome occurs |
| GuardArena.AfterIsRewrite | src/guardpass.rs:48-79 | once every loop body is hoisted and no other sequence, the arena holds the rewritten tree |
| GuardArena.OutcomeUnchanged | src/guardpass.rs:65-79 | what the pass finds in a loop does not depend on the loops it has hoisted before |
| GuardArena.GuardFirst | src/guardpass.rs:127-136 | true exactly when a guard call stands before any other transfer |
| GuardArena.PlanHoist | src/guardpass.rs:192-229 | the scan finds the extent to drain, or why there is none |
| ByteAdjacency.VerifyBody | src/guardpass.rs:296-335 | the `pending`/`want` scanner returns exactly the loops that are not followed by const, const, call `_g` |
| ByteAdjacency.FlaggedExactly | src/guardpass.rs:296-335 | one finding per such loop, in order of offset, and none for any other operator |
| ByteAdjacency.StreamMatchesTree | src/guardpass.rs:296-335 | scanning the emitted stream judges the loops of the tree one by one, in emission order |
| ByteAdjacency.CleanBuild | src/guardpass.rs:271-337 | a function body passes the gate if and only if every loop of its tree begins with the guard |
| GuardLint.WalkReportsLoops | src/lint.rs:429-460 | the lint's recursion reports each loop of the tree once, in emission order |
| LintStream.PositionIff | src/lint.rs:384-428 | a loop is compliant if and only if the guard call is the first operator of its emitted body that is neither straight-line nor the opening or closing of a block; unguarded if and only if the call is nowhere in it; mispositioned otherwise |
| GuardLint.AdjacentLeads | src/guardpass.rs:127-136 | nested notions, first step: a body that begins with the guard leads with it |
| GuardLint.LeadsIsFirst | src/lint.rs:384-406 | second step: leading with the guard implies `first_branch_is_guard` is Some(true) |
| GuardLint.FirstIsContained | src/lint.rs:353-364 | third step: Some(true) implies a guard is contained |
| GuardLint.NotionsDiffer | src/lint.rs:366-406 | none of the three implications can be turned around |
| GuardLint.FirstIsLeadingWithoutBlocks | src/lint.rs:384-406 | without blocks at its top level a body is compliant to the lint if and only if it leads with the guard |
| GuardLint.GateImpliesLint | src/lint.rs:413-460 | a function that passes the byte gate has nothing for the lint to report |
| GuardLint.LintAfterPass | src/lint.rs:413-426 | a loop the pass moved or found leading is compliant afterwards; "unguarded" is reported exactly where the pass reported no guard |
| CallGraph.Search.DeepestChain | src/lint.rs:592-621 | for every call graph the search terminates, restores the stack, never changes a memo entry, sets `recursion` only if a cycle is reachable, and otherwise memoizes the value it returns |
| CallGraph.Search.DeepestOf | src/lint.rs:540-555 | over all roots with one memo: `recursion` if and only if some root reaches a cycle of local functions; otherwise every root's entry is the heaviest path weight capped at the u32 maximum, and the result is the largest of them |
| CallGraph.HeaviestStep | src/lint.rs:608-619 | the heaviest path weight satisfies the recurrence the search computes, saturation included |
| CallGraph.OrderedNoRepeat | src/lint.rs:592-621 | a finish order in which callees precede callers excludes every repeating path |
| Guardrail.HookAccount.Hook | examples/agent_guardrail_stateful.c:50-167 | one run returns the verdict of the specification and leaves exactly its state: stored only on acceptance |
| Guardrail.UnpolicedPasses | examples/agent_guardrail_stateful.c:48-67 | anything but a payment, and a payment from another account, is let through under any parameters and changes no state |
| Guardrail.RolledBackIff | examples/agent_guardrail_stateful.c:48-163 | the verdict on any transaction: rolled back if and only if it is a payment whose origin cannot be read, or which the account itself sends and which fails the policy, undecodable parameters included; state changes only on a pass |
| Guardrail.ReasonIsTrue | examples/agent_guardrail_stateful.c:70-155 | the check that a rollback names has failed |
| Guardrail.DropsIff | include/xahc/otxn.h:46-51 | native are exactly the eight-byte amounts without the top bit, and they denote their low 62 bits |
| Guardrail.SameAccount | examples/agent_guardrail_stateful.c:62-66 | the byte loop decides equality of the two accounts |
| Guardrail.SlotRoundTrip | examples/agent_guardrail_stateful.c:35-48 | `be64` after `wr64` is the identity on 64-bit numbers |
| Guardrail.Be64IsBigEndian | examples/agent_guardrail_stateful.c:35-41 | `be64` is the big-endian value of its eight bytes |
| Guardrail.AcceptsIff | examples/agent_guardrail_stateful.c:97-157 | a policed payment is accepted if and only if the destination is allowed, the state readable and the amount within LIM and the remaining budget; a refusal leaves the state alone |
| Guardrail.AcceptedIsWithinBudget | examples/agent_guardrail_stateful.c:136-163 | an accepted payment adds without 64-bit wrap, what is stored reads back as the new total, which is at most PLM if the old one was, and only a zero payment passes if PLM had been lowered below it |
| GuardrailRuns.CallWithinBound | examples/agent_guardrail_stateful.c:104-163 | one call spends no more than it takes off what may still go out up to any later ledger: the open period's rest and PLM for each period that can open after it |
| GuardrailRuns.RunWithinBound | examples/agent_guardrail_stateful.c:97-163 | so no run from any stored slot spends more than that bound |
| GuardrailRuns.FreshRun | examples/agent_guardrail_stateful.c:97-163 | a run that no stored period covers at its start (none, an elapsed one, one ahead, or an over-long slot) spends over `f..l` at most PLM * (floor((l-f)/PER)+1) |
| GuardrailRuns.AnyWindow | examples/agent_guardrail_stateful.c:97-163 | any window `f..l` of any run from any stored state: at most PLM * (floor((l-f)/PER)+2) |
| GuardrailRuns.SlidingWindow | examples/agent_guardrail_stateful.c:97-163 | any PER consecutive ledgers of any run: at most 2 * PLM |
| GuardrailWindows.BoundIsReached | examples/agent_guardrail_stateful.c:97-163 | the bound is exact: with LIM > 0 and a slot that is not too short, from any state some run spends all of it |
| GuardrailWindows.WithinFittingPeriodsIff | examples/agent_guardrail_stateful.c:97-163 | from any stored slot at `f`: every run spends over `f..l` at most (floor((l-f)/PER)+1) * PLM, if and only if not (LIM > 0, a stored period is open at `f` with headroom left, it ends at `e <= l`, and floor((l-e)/PER) = floor((l-f)/PER)) |
| GuardrailWindows.WindowWithinFittingPeriodsIff | examples/agent_guardrail_stateful.c:97-163 | the same for a window inside a longer run, for every continuation of the calls before the window, with the slot they left |
| GuardrailWindows.NearlyTwicePlmInTwoLedgers | examples/agent_guardrail_stateful.c:116-124 | an instance of the failing case: a run of positive payments from fresh state that sends 2 * PLM - 1 within two ledgers, one period of length PER fitting |
| GuardrailWindows.TwicePlmInTwoLedgers | examples/agent_guardrail_stateful.c:116-124 | after a payment of nothing it is 2 * PLM |
| GuardrailWindows.PositiveWindow | examples/agent_guardrail_stateful.c:97-163 | if every payment moves something and PLM > 0, any window of a run from fresh state sends at most (floor((l-f)/PER)+2) * PLM - 1 |
| GuardrailWindows.PositiveSlidingWindow | examples/agent_guardrail_stateful.c:97-163 | so at most 2 * PLM - 1 in any PER consecutive ledgers, which the instance attains |
| PolicyReadout.SameNumbers | x402-xahau/server.mjs:1289-1345 | the facilitator's decoders read the numbers the hook reads |
| PolicyReadout.MaxNextPaymentIsExact | x402-xahau/server.mjs:1408-1425 | with a decodable policy the hook accepts a native payment to an allowed destination if and only if it is at most `maxNextPayment` |
| PolicyReadout.ResetIsLeastWait | x402-xahau/server.mjs:1408-1425 | `resetInLedgers` is the least wait after which the hook opens a new period: at every earlier ledger its slot is the stored period with the decoded start and total, and then it is a new one |
| PolicyReadout.ReadoutIsSlot | x402-xahau/server.mjs:1408-1425 | live, spent and remaining are those of the slot the hook works with at that ledger |
| PolicyReadout.MoneyMayLeaveIff | examples/agent_guardrail_stateful.c:88-163 | the hook accepts some payment of at least one drop if and only if it can decode LIM, PLM, PER and the slot, LIM is positive and the open period has headroom |
| PolicyReadout.SilentWhileOpenIff | x402-xahau/server.mjs:1289-1345 | the readout claims nothing although the hook would still accept a payment of at least one drop, if and only if that condition holds and LIM or PLM is above the total supply or the slot is longer than 16 bytes |
| PolicyReadout.OpenIffDecodable | examples/agent_guardrail_stateful.c:88-163 | some policed payment, if only of nothing, is accepted if and only if the hook can decode everything it reads |
| PolicyReadout.CorruptIffShort | x402-xahau/server.mjs:1325-1341 | on a slot that is not 16 bytes long the hook rolls back as corrupt if and only if it is shorter, while the readout is silent on both |
| PolicyReadout.OverlongSlotIsFresh | x402-xahau/server.mjs:1325-1341 | on a longer slot the hook decides, and stores, as if nothing had been stored |
| PolicyReadout.OverlongSlotAccepts | examples/agent_guardrail_stateful.c:112-129 | a seventeen-byte slot on which the hook accepts a payment of all of LIM and PLM |
| ReplayStore.InMemoryStore.SweepExpired | x402-xahau/server.mjs:1069-1073 | the two loops delete exactly what has expired and report room below the cap |
| ReplayStore.InMemoryStore.ReserveKey | x402-xahau/server.mjs:1074-1083 | reply and new store of the specification of `reserve` |
| ReplayStore.InMemoryStore.SetBinding | x402-xahau/server.mjs:1094-1099 | reply and new store of the specification of `set` |
| ReplayStore.InMemoryStore.GetExpiry | x402-xahau/server.mjs:1084-1089 | the live expiry, dropping an expired entry |
| ReplayStore.InMemoryStore.ReadReceipt | x402-xahau/server.mjs:1102-1107 | the live receipt, dropping an expired one |
| ReplayStore.ReserveIff | x402-xahau/server.mjs:1074-1083 | "reserved" if and only if the key has no live binding and the live ones leave room |
| ReplayStore.NeverEvictsLive | x402-xahau/server.mjs:1074-1083 | no reservation evicts or changes a live binding of another key, and a refused one changes no live binding |
| ReplayStore.CapIsKept | x402-xahau/server.mjs:1069-1083 | the number of bindings never exceeds the cap |
| ReplayStore.SweepKeepsLive | x402-xahau/server.mjs:1069-1073 | bindings and receipts stay if and only if they have not run out |
| ReplayStore.PutIff | x402-xahau/server.mjs:1094-1099 | the upsert succeeds if and only if the key is bound or the live bindings leave room |
| ReplayStore.LookupsIff | x402-xahau/server.mjs:1084-1107 | `get` and `getReceipt` answer an entry if and only if it has not run out, and drop only an entry that has |
| ReplayStore.ReleaseForgets | x402-xahau/server.mjs:1100-1108 | a release forgets the key and its receipt and nothing else; a stored receipt is found until it runs out |
| Settlement.StepIsSafe | x402-xahau/server.mjs:2120-2273 | every step of every interleaving keeps: a granted reservation still binds its key, was released, or has run out; two reservations of one id never overlap |
| Settlement.NoDoubleSettle | x402-xahau/server.mjs:2120-2273 | of any two submits of one replay id, in any run of any number of calls, the earlier reservation was released after a provably-not-applied submit, or the clock had reached its expiry, before the later one was granted |
| Settlement.NoDoubleSettleOwn | x402-xahau/server.mjs:2253-2270 | if such submits end before their own binding expires, the releasing call is the one that held the earlier reservation, so its own transaction did not apply |
| SettlementTimely.ReleasesAnotherIffLate | x402-xahau/server.mjs:2253-2270 | in every state of the invariant, a call in flight that proves itself unapplied can take away another call's live binding (live before, gone after) at this clock, at once or after one whole new settlement, if and only if its own binding has run out and the id is bound anew or the store has room |
| SettlementTimely.RunReleasesAnotherIffLate | x402-xahau/server.mjs:2253-2270 | the same after every timely run |
| SettlementTimely.NewSettlement | x402-xahau/server.mjs:2120-2250 | a new call with any admitted window, for an id without a live binding, in a store with room, gets from its arrival to its submit; its reservation lasts for the window and the margin |
| SettlementTimely.SettlesIff | x402-xahau/server.mjs:2120-2250 | and only such a call does: no live binding, LastLedgerSequence one ledger ahead or a window that fits into the TTL with the margin, and room |
| SettlementTimely.RefusedIff | x402-xahau/server.mjs:2121-2131 | both times it asks, a call is refused as consumed if and only if its id has a live binding |
| SettlementTimely.WindowedIff | x402-xahau/server.mjs:2158-2173 | an unreadable ledger or a window that is not admitted ends the call with nothing reserved |
| SettlementReceipts.ReceiptIsHandedOut | x402-xahau/server.mjs:2121-2131 | once a call has persisted its receipt, every call for the same id before that binding runs out is refused and finds that receipt, after any steps that neither release the id nor memoize it anew |
| SettlementReceipts.HashIsBound | x402-xahau/server.mjs:2295-2303 | a classified answer binds the hash too if and only if it is bound already or there is room, and touches no live payment binding |
| SettlementTimely.UntimelySettlesTwice | x402-xahau/server.mjs:2253-2270 | timeliness is needed: a run in which the id is submitted again while the payment of a call with a live reservation is in flight, released by neither it nor time |
| Settlement.RunOutIsTooLateToApply | x402-xahau/server.mjs:1037-1047 | if a ledger closes at least every LEDGER_CLOSE_MS and the stale clock value is within the margin of the ledger read, then once the first binding had run out the validated ledger had reached its LastLedgerSequence |
| Settlement.ReceiptsComeFromSubmits | x402-xahau/server.mjs:2450-2460 | a receipt is memoized only by a call that submitted the same id before |
| Settlement.WindowOkExact | x402-xahau/server.mjs:1025-1028 | a window is accepted if and only if the LastLedgerSequence is one ledger ahead, or further ahead and closing times and margin fit into the TTL |
| Settlement.WindowFitsTtl | x402-xahau/server.mjs:1021-1028 | every accepted window's binding lasts at most the TTL if and only if one ledger and the margin fit into it |
| RedisReserve.StepKeepsInv | x402-xahau/server.mjs:1135-1157 | every atomic command keeps: a caller whose binding lives owns its key, and live reserved keys are at most the cap |
| RedisReserve.ReservationsAreExclusive | x402-xahau/server.mjs:1135-1157 | in every interleaving of SET NX, DBSIZE and DEL at most one caller holds a key while its binding lives, and live reserved keys never exceed `maxEntries` |
| RedisReserve.ReserveAnswers | x402-xahau/server.mjs:1135-1157 | one `reserve` to its answer: "exists", writing nothing, if and only if the key has a live binding; else "reserved" and bound for `px` milliseconds if the size is at most the cap, "full" and unbound again if not; no other key changes |
| RedisReserve.CanBeToldIff | x402-xahau/server.mjs:1135-1157 | a key can be reserved if and only if it has no live binding and fewer than `maxEntries` keys have one |
| RedisReserve.RollbackDeletesOwn | x402-xahau/server.mjs:1150-1153 | an over-cap rollback, or a release, in time deletes the caller's own binding and no other |
| RedisReserve.DeletesAnotherIffLate | x402-xahau/server.mjs:1148-1153 | in every state of the invariant, a caller about to roll back or release can destroy another caller's live binding (live before the DEL, not live after it) at this clock, at once or after one more SET NX, if and only if its own binding has run out |
| RedisReserve.DeletesAnotherAfterPauseIff | x402-xahau/server.mjs:1148-1153 | the same after any run and a pause before the deletion: if and only if the pause reaches the caller's own expiry |
| RedisReserve.LateRollbackDeletesAnother | x402-xahau/server.mjs:1148-1153 | one course in which a late rollback deletes the next caller's live binding |
| RedisReserve.BothMayBeRefused | x402-xahau/server.mjs:1150-1153 | the cap errs towards refusing: with room for one, both of two callers can be refused |
| TokenValue.ParseTokenValue | x402-xahau/server.mjs:342-386 | the parser, with its loop over trailing zeros, returns the specified value for every string |
| TokenValue.MatchSound | x402-xahau/server.mjs:346-351 | whatever the pattern accepts is spelled by the groups it captured |
| TokenValue.MatchComplete | x402-xahau/server.mjs:346-351 | every spelling of well-formed groups is accepted, with exactly those groups |
| TokenExact.ParseIsExact | x402-xahau/server.mjs:342-386 | a grammatical string is accepted if and only if the number it denotes is a sixteen-digit mantissa times a power of ten within [-96, 80]; the parsed pair is then exactly that number |
| TokenExact.HoldableIff | x402-xahau/server.mjs:370-383 | the digit-count and exponent checks hold exactly for the numbers the ledger can hold |
| TokenExact.SameValueIffSameNumber | x402-xahau/server.mjs:353-385 | two accepted strings give the same mantissa and exponent if and only if they denote the same number |
| TokenExact.CompareIsOrder | x402-xahau/server.mjs:394-401 | the comparison is the order of the numbers, for any two values |
| TokenExact.PrintedReadsBack | x402-xahau/server.mjs:957-966 | parsing the printed form of a parsed value gives the value back |
| TokenExact.PrintedForm | x402-xahau/server.mjs:957-966 | the printed form is a plain decimal without exponent, superfluous zeros or more places than the value has |
| TokenExact.SettleUsesVerifiedAmount | x402-xahau/server.mjs:2139 | the amount `settle` re-parses exists, and any delivered value compares with it as with the number in the signed transaction |
| TokenBucket.Bucket.Eval | x402-xahau/server.mjs:2675-2714 | the script's answer and stored hash are the specification's, expired keys read as absent |
| TokenBucket.StoreIsSound | x402-xahau/server.mjs:2690-2711 | stored tokens stay in 0..max*SCALE at any clock |
| TokenBucket.CallMeans | x402-xahau/server.mjs:2690-2714 | one call: allowed if and only if a whole token is at hand, which it takes, with no wait; a clock that stands still or goes back refills nothing |
| TokenBucket.RateBound | x402-xahau/server.mjs:2675-2714 | from a key's first call on, any stretch of calls spanning T ms is granted at most max + T * max / windowMs requests |
| TokenBucket.FreshBurst | x402-xahau/server.mjs:2685-2702 | of n calls that a new key makes at once exactly the first max are allowed |
| TokenBucket.ExpiryNeverDecides | x402-xahau/server.mjs:2729-2736 | over any sequence of calls, dropping idle keys after two windows changes no answer |
| TokenBucket.ResetIsLeastWait | x402-xahau/server.mjs:2701-2709 | on refusal `resetMs` is the least wait after which one call is allowed |
| TokenBucket.PollingStarves | x402-xahau/server.mjs:2690-2711 | where one millisecond refills less than a millionth of a token, polling an empty bucket every millisecond is never granted |
| TokenBucket.PollingStarvesIff | x402-xahau/server.mjs:2690-2711 | and only there: otherwise such polling is granted within a million calls |
| Multisig.AuthorizeOnLedger | x402-xahau/server.mjs:1810-1850 | the loop over entries with its early fallback, deduplication and running sum returns the decision defined by the set of proved signers |
| Multisig.TotalAdds | x402-xahau/server.mjs:1823-1846 | crediting one more account adds exactly the weight the map holds, the last listing of a repeated account |
| Multisig.AuthorizedIffQuorum | x402-xahau/server.mjs:1823-1849 | with distinct listed accounts: it falls back if and only if some entry speaks, with its own key, for a listed account that cannot be encoded for; else authorized if and only if some set of accounts, each with an entry whose key derives to it and whose signature verifies, carries weights reaching the quorum |
| Multisig.WithoutList | x402-xahau/server.mjs:1811-1822 | no list at all rejects; a list that cannot be read or used falls back |
| Multisig.OnlyTheSetMatters | x402-xahau/server.mjs:1826-1846 | order and repetition of entries do not matter |
| Multisig.MoreEntriesNeverReject | x402-xahau/server.mjs:1826-1849 | adding entries never turns authorized into rejected; it falls back exactly when an added entry cannot be encoded |
| Multisig.IdleEntriesAreIgnored | x402-xahau/server.mjs:1827-1843 | malformed, unlisted, mismatched and badly signed entries change nothing |
| JsonReader.EscapeTable | x402-xahau/server.mjs:503 | the seven letter escapes; `\u` and four lower-case hexadecimal digits of its value for every other control unit and every lone surrogate; every other unit as it is |
| JsonText.QuotedReadBack | x402-xahau/server.mjs:503 | a quoted string (escapes as in section 7 of RFC 8259, lone surrogates escaped), followed by any text, can be read back in one way only |
| JsonText.NumberReadBack | x402-xahau/server.mjs:505-508 | an integer followed by the end, a comma or a closing bracket can be read back in one way only |
| CanonicalJson.PrintedKeys | x402-xahau/server.mjs:511 | the keys printed are exactly those whose value is not undefined, strictly ascending by code units |
| CanonicalJson.KeysAscend | x402-xahau/server.mjs:511 | of two printed keys the earlier one is a proper beginning of the later, or has the smaller code unit where they part |
| CanonicalExact.ReadBack | x402-xahau/server.mjs:500-515 | two values whose texts agree, whatever follows each, are the same up to key order and dropped members, and so is what follows |
| CanonicalExact.SamePrintsSame | x402-xahau/server.mjs:500-515 | values that are the same up to key order and dropped members print alike, or both throw |
| CanonicalExact.SameTextIffSame | x402-xahau/server.mjs:500-515 | two values have the same canonical text if and only if they are the same up to key order and dropped members |
| CanonicalExact.PrintsIff | x402-xahau/server.mjs:500-515 | the printer throws if and only if a non-finite number, an undefined value or a value outside JSON occurs, undefined members excepted |
| JsonReader.ValueRead | x402-xahau/server.mjs:500-515 | an independent reader of the JSON grammar (RFC 8259) reads the canonical text of any value, with whatever may follow it, as that value up to key order and dropped members, and stops exactly where it ends |
| JsonReader.CanonReadsBack | x402-xahau/server.mjs:500-515 | reading the whole canonical text gives the value back, and printing what was read gives the same text |
| Utf8.EncodeInjective | x402-xahau/server.mjs:624 | text without lone surrogates is determined by its UTF-8 bytes |
| Utf8Reader.DecodeAfterEncode | x402-xahau/server.mjs:624 | an independent decoder (RFC 3629) reads the bytes back as the text, lone surrogates as U+FFFD |
| SignedReceipt.CanonIsPaired | x402-xahau/server.mjs:500-515 | canonical text never holds a lone surrogate, even where the strings of the value do |
| SignedReceipt.SignedBytesDetermineFields | x402-xahau/server.mjs:618-631 | two receipts have the same signed bytes if and only if they agree in all eight signed fields, an absent one counting as null |
| SignedReceipt.ChangedScalarChangesBytes | x402-xahau/server.mjs:644-665 | a receipt changed in any scalar field has other bytes, so a signature over the original does not cover it |
| ReceiptReader.SignedBytesReadBack | x402-xahau/server.mjs:523-535 | the signed bytes, decoded and read as JSON, are an object with version 1 and each field of the receipt under its own name, null where absent, and no other name |
| ReceiptReader.SignsIff | x402-xahau/server.mjs:618-631 | there is something to sign if and only if every field is absent or can be printed |

## Left out

- The amendment `fix20260929` is always on: with it off the C++ original reads out of bounds.
- Error texts; a parser that fails answers `None`, host functions answer their return codes.
- Offsets and lengths are unbounded numbers: the casts to 32 bits in `sto_subfield` and `sto_subarray` and the packing of the two into one result are not modelled.
- The table of known field codes is a parameter (a set), and memory bounds checks of the host calls are left out.
- Slots.Slots.SlotSet: what the key resolves to in the ledger or among the transactions, including the keylet type check and the malformed fixture, is a parameter; only the argument checks, the allocation and the store are modelled.
- XChainBridge fields are modelled in the light walker only; the full walker does not support them, so they are not in the tree.
- Payment.BuildPaymentIou: what `float_sto` writes is a parameter, taken to be the 49 bytes of an issued Amount field.
- Payment.BuildPayment: `etxn_details` is taken to answer at most 138 bytes, and the macros that reserve and emit are left out.
- WebAssembly decoding: instruction trees, operator lists and the emission order of walrus are data here; two constants directly before a guard call are taken to be i32 (`GuardRewrite.TypedGuards`).
- The check that a module calls no function of its own (`verify_no_user_calls`), which is one scan for a call.
- GuardArena.LocalFunction.Reposition: one function at a time; the loop over the functions of a module only adds the counts.
- The parsing of frame sizes from prologues and the percentage thresholds of the stack check.
- Guardrail.HookAccount.Hook: `accept` and `rollback` are verdicts, the messages and line numbers are left out, and the guard counters of the two byte loops are not counted.
- Settlement: one process and one store, a clock in whole milliseconds and a ledger, neither going back; the node's answers and the outcome of the authorization and hook checks are free choices of the run.
- RedisReserve: DBSIZE answers any number that is at least the number of live bindings, since other keys are counted too; persistence, failover and the receipts beside the bindings are left out.
- The in-memory rate limiter computes with floating point and is left out; so are clocks that go back, for which the script keeps the smaller time.
- TokenBucket.Bucket.Eval: whole numbers instead of Lua's doubles, which are exact below 2^53; limits are at least one token and one millisecond, and key expiry follows the caller's clock.
- TokenValue.ParseTokenValue: the exponent is read exactly, while the source reads it as a double; the two differ only for exponents beyond 2^53, which both reject unless the string itself has about that many digits.
- The RegularKey branch of the authorization and the shape checks on the node's signer list.
- Multisig.AuthorizeOnLedger: key derivation, multisigning encoding and signature verification are uninterpreted functions of the transaction.
- JsonText.NumberReadBack: only integers; fractions, exponents and negative zero are left out, as are array holes and objects with a `toJSON` member.
- CanonicalJson.PrintedKeys: an object is a list of assignments, so the special place of integer-like keys in insertion order is not modelled; the keys are sorted anyway.
- ed25519, hashing and key handling of receipts: the result is about the signed bytes.
- The HTTP server, logging, metrics, configuration, the MCP tools, the fuzzer, the prover bridge, scaffolding and the command line.
