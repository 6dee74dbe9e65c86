# NeoScript: a verified model of its runtime and compiler algorithms

NeoScript is a script compiler and bytecode virtual machine written in C++. This project models the parts of
it whose correctness rests on invariants over whole data structures, whole programs or whole runs, and proves
those invariants in Dafny. `dafny verify dfyconfig.toml` checks everything.

| files | what they model |
|---|---|
| `CandidateQueues.dfy`, `CycleGraph.dfy`, `CycleCollector.dfy` | the cycle collector over reference counts, with its seven intrusive candidate queues |
| `HashCapacity.dfy`, `MapInfo.dfy` | the script map: a chained scatter table with displacement and a one-way free cursor |
| `StringIntern.dfy` | the string intern table: linear probing, deletion by cluster reinsertion, growing and shrinking |
| `ShortCircuit.dfy` | backpatched code for `&&` and `\|\|`, compare-and-jump fusion, range-jump fusion |
| `LoopHoisting.dfy` | replacing loop constants by hidden local slots, and the frame layout |
| `IntegerArithmetic.dfy`, `ExpressionParsers.dfy` | 64-bit script arithmetic; the operator-stack expression parser and the precedence-climbing constant parser |
| `AlwaysReturns.dfy` | code for blocks, `if` and `while`, and the always-returns analysis that drops code |
| `HostCalls.dfy` | generational handles and the host call protocol: tokens, the lent context, suspension, re-entry |
| `AsyncRequests.dfy` | asynchronous requests between two threads, with orphan accounting |
| `ScriptSort.dfy` | the stable merge sort of lists under an arbitrary script comparator |
| `UtcTime.dfy`, `UtcText.dfy` | the UTC calendar and its timestamps |
| `BoolArray.dfy` | the bit-packed boolean array |
| `Collections.dfy` | options and sequences, shared by the others |

Code that changes state step by step is modelled by classes whose methods change fields in loops, each proved
against a specification on plain values; what is promised of those values is stated in lemmas. Compiler
output is given a small machine (slots, constants, relative jumps counted in operations) and compared with an
independent meaning of the source construct.

## What the proofs show

- **Range fusion.** `TryFuseRangeJump` looks only at how many open jumps are left (NeoParser.cpp:3872-3880).
  For `A && B || C` with adjacent comparisons `B` and `C` of one slot, the false jump of `A` was already
  patched to the operation of `C`, which fusion deletes; with `A` false the body is reached even if `C` is
  false. `FusedCodeReachesBodyOnFalseChain` is such a program; in `FusedCodeMissesFault` the same program runs
  the body where the chain faults. `FusedCodeExactly` says, for every state, exactly when fused code goes where
  it should, exactly when it makes the right evaluations, and what it leaves out otherwise;
  `FusedCodeComputesMeaning` that it is always right with two atoms. `FlagOrRangeEmitted` runs the emitter on that
  program. Unfused code always is
  (`BranchCodeComputesMeaning`, `ValueCodeComputesMeaning`).
- **Native roots.** The collector never colours a native root white, but a native root that only white objects
  refer to loses its count when they are released, and is destroyed: `NativeRootMayBeDestroyed` runs the
  collector on such a heap. A collection destroys exactly the doomed objects, a set that the heap before it
  determines (`DestroyedExactly`), and `SparedExactly` says what saves an object. A pending asynchronous request
  refers to itself and so is always safe (`SelfHeldIsSpared`). What a counted outside reference leads to is safe
  over any number of collections, and forced collection ends with empty queues (`CollectCycles`).
- **Complete collection.** Whatever loses a reference and lives on becomes a candidate (`Settle`,
  `RequeuedLowered`). Hence if the candidates lead to every unreachable container that owns references, they do
  so after any collection as well (`StaysCovered`), and after a forced one whatever is still referred to is
  reached from outside or from a native root (`CollectCycles`).
- **Host calls.** A token whose call was nested in a run can still be read when the return slot is no longer its
  own: after the run has gone on (`NestedResultGoesStale`), and after the host function that made the call has set
  the value it returns itself (`ReturnValueOverwritesResult`). If the Invocation of a running call is assigned, as
  in `inv = rt->Call(h, g)` inside a callback, the running call's result goes to the new token, which is still
  prepared (`AssignedTokenGetsResult`); if it is moved from, to none (`MovedTokenLeavesLease`).
  `ReadsOwnResultExactly` and `RunsAreSafe` give the exact conditions, over all histories with such steps;
  without assignments and moves of that kind `UndisturbedRunsAreSafe` holds. `Cancel` drops the arguments of an
  armed token and leaves it armed (`ArgumentsKeptExactly`, and a run that shows it, `PreparedArgumentsAreLost`);
  apart from that a call starts with exactly what its token was given, in order (`CallStartsWithGiven`).
- **Hoisting.** Hidden slots lie in the same store as all others. That nothing overwrites them follows from where
  slots end up in the frame (`FrameSlotsAreApart`) and from what an operation can write at all: the slots its
  operands name and those above the frame (`WritesOnlyNamed`, `PutAllKeeps`, `PutWindowKeeps`). The fields of
  operations whose operands are never replaced are part of what the machine sees, so renaming an immediate would
  change the meaning.
- **Map.** The failure branches of a rehash, of the second attempt of an insertion and of growing a full table
  are unreachable (`CarryOver`, `PlaceOrRebuild`, `Rebuild`); the only failure is the capacity limit.
- **List sort.** Changes of the list's shape end a sort; assignments to elements by the comparator do not
  change the mutation version (NeoVMList.cpp:73-81), so a successful sort overwrites them with the snapshot.
- A comment in the source (NeoParser.cpp:459) says that constant expressions are computed in floating point.
  The code computes integers as integers, and the model follows the code.

## How the model is built

- Containers of the collector are indices into a pool; `external` gives each the number of counted references
  from outside containers. The work list, which the source keeps in one vector, is split into touched, black and
  white. Which objects are native roots is fixed during one collection. Allocation always succeeds.
- Map keys carry a hash and an identity, so every hash function is covered. Interned strings likewise.
- Opcode meanings are those of the interpreter loop (NeoVMWorker.cpp:2155-2227) restricted to integers, booleans
  and absent values: comparing anything but integers stops with a fault, which counts as observable. Conditions
  and operands of a chain are preceded by arbitrary effects, so that evaluation order shows.
- Loop hoisting compares two frames, the original one and the one widened by hidden slots, in which temporaries,
  the return slot and call arguments lie higher. What operations do is a parameter: each is given the values of
  the operands it names, the slots above the frame and the rest of the machine, and leaves new ones. Only a move
  to a slot has a fixed meaning. Operations with more operands than fields, such as capturing closures and loop
  groups, come with the list of slots they name. Both frames start with the same contents wherever the function
  can look.
- In the host call protocol the script's behaviour, the context pool and the matching of handles are inputs of
  the steps. A frame is on the interpreter's stack between the two halves of an invocation or a resumption, and
  every other step may happen meanwhile. A call runs on an Invocation object, which may be assigned or moved from
  before it returns; the frame records what the object holds by now and the token it was called with.
- The thread of the asynchronous requests runs between any two steps of the main thread. It pushes a finished
  request and then sets its event, both under the lock of the completed queue: a search waits for the lock, a
  wait for the event does not. Popping a request and updating the main thread's own counters is one step, and the
  transport's answer is not modelled.
- A script comparator is a function of the call's number and its two arguments; it may fault, return no bool,
  and change the list.
- Counters (generations, worker ids, mutation versions, call numbers) do not wrap around.

## Model

| member | source | states |
|---|---|---|
| `CycleGraph.ScratchMeaning` | NeoSource/NeoVM.cpp:1641-1691 | what is left of a scratch count after one decrement per reference from an expanded object is zero exactly when the object has no reference from outside the expanded set and no counted outside holder |
| `CycleGraph.WhiteIsIsolated` | NeoSource/NeoVM.cpp:1682-1724 | soundness of the colouring: a white object has no outside holder, is no native root, and every container that refers to it is white |
| `CycleGraph.RootedIsNeverWhite` | NeoSource/NeoVM.cpp:1658-1724 | nothing that an outside holder or a native root leads to is ever coloured white |
| `CycleGraph.WhiteIsAllGarbage` | NeoSource/NeoVM.cpp:1599-1725 | completeness: once every unreachable container that owns references has been touched, a touched object is white if and only if it is unreachable |
| `CycleGraph.OwnedIsNeverWhite` | NeoSource/NeoVM.cpp:1684-1709 | what a counted outside reference leads to, through any references, is never white |
| `CycleCollector.TouchedExactly` | NeoSource/NeoVM.cpp:1658-1696 | after the gray phase the work list holds exactly what the popped candidates reach, and the seeds of the black phase are exactly the native roots and the objects held from outside the expanded set |
| `CycleCollector.CNeoVM.MarkGray` | NeoSource/NeoVM.cpp:1629-1643 | touching an object enters it once, with its count as scratch count; a touched object is left alone |
| `CycleCollector.CNeoVM.VisitSlot` | NeoSource/NeoVM.cpp:1663-1677 | one reference: a leaf container is skipped, a container is touched if new, and the scratch count drops once per reference |
| `CycleCollector.CNeoVM.GrayPhase` | NeoSource/NeoVM.cpp:1658-1678 | the loop closes the work list under references; every scratch count is the count less the references from the expanded objects, parallel references included |
| `CycleCollector.CNeoVM.SeedBlack` | NeoSource/NeoVM.cpp:1684-1696 | exactly the native roots and the objects with a non-zero scratch count become black |
| `CycleCollector.CNeoVM.BlackPhase` | NeoSource/NeoVM.cpp:1697-1709 | the black objects are exactly those the seeds reach |
| `CycleCollector.CNeoVM.WhitePhase` | NeoSource/NeoVM.cpp:1711-1725 | the white objects are exactly the touched ones that are not black |
| `CycleCollector.CNeoVM.FindWhite` | NeoSource/NeoVM.cpp:1645-1725 | the whole marking half: the touched list is what the popped candidates reach, the white list exactly the part no seed reaches, and only touched objects carry marks |
| `CycleCollector.WhitesAreReleasable` | NeoSource/NeoVM.cpp:1727-1736 | no white object is destroyed already or owned from outside, and white objects are referred to by white objects only |
| `CycleCollector.CNeoVM.HoldWhites` | NeoSource/NeoVM.cpp:1729-1736 | every white object leaves the candidate queues, is flagged and counted once more; counts stay balanced: outside holders, references and the hold |
| `CycleCollector.CNeoVM.CutEdges` | NeoSource/NeoVM.cpp:1769-1862 | every reference owned by a white object is cut, no white object dies meanwhile, and nothing owned from outside is destroyed |
| `CycleCollector.CNeoVM.DropHold` | NeoSource/NeoVM.cpp:1866-1875 | when a hold is dropped the count is zero: the object is destroyed, the branch that re-queues it is never taken |
| `CycleCollector.CNeoVM.DropHolds` | NeoSource/NeoVM.cpp:1864-1877 | all white objects end destroyed and every survivor keeps its references |
| `CycleCollector.CNeoVM.Settle` | NeoSource/NeoVM.cpp:129-165 | after a lost reference: an object with none left is queued for destruction; the exact account of the candidates holds: earlier ones stay unless destroyed or held, a survivor that lost a reference and may be part of a cycle is one, and no other object became one |
| `CycleCollector.RequeuedLowered` | NeoSource/NeoVM.cpp:129-165 | told from that account: every survivor with a lower count that may refer to containers and is no module is in the queue of its kind |
| `CycleCollector.StaysCovered` | NeoSource/NeoVM.cpp:1495-1530 | completeness is kept by a collection of however many candidates: if the candidates led to every unreachable container that owns references, those left do again, because whatever lost an owner became a candidate |
| `CycleCollector.AllRooted` | NeoSource/NeoVM.cpp:1888-1908 | with no candidate left, completeness means that whatever is referred to is reached from a holder outside or a native root |
| `CycleCollector.CNeoVM.Drain` | NeoSource/NeoVM.cpp:1219-1247 | emptying the destruction queue ends, destroys all that is in it, and leaves held and owned objects alone though each destruction may queue more |
| `CycleCollector.SparedExactly` | NeoSource/NeoVM.cpp:1599-1877 | told from the heap before the collection: a live object, native root or not, survives if and only if it belongs to a set apart from the white objects whose members are each held from outside, referred to by a member, or referred to by nothing; equivalently, if it is not doomed |
| `CycleCollector.DestroyedExactly` | NeoSource/NeoVM.cpp:1727-1877 | a collection destroys exactly the doomed objects: the least set with the white objects and every object that has referrers, all of them in the set, and no holder outside |
| `CycleCollector.SelfHeldIsSpared` | NeoSource/NeoLib.cpp:1891-1897 | a native root that refers to itself, as a pending asynchronous request does, survives every collection |
| `CycleCollector.GarbageIsFreed` | NeoSource/NeoVM.cpp:1599-1877 | if the candidates reach every unreachable container that owns references, every unreachable touched object is destroyed, and no reachable one was white |
| `CycleCollector.NativeRootMayBeDestroyed` | NeoSource/NeoVM.cpp:1658-1661 | counterexample, as a run of the collector from a built heap: a native root, an active coroutine that only a white map refers to, is destroyed although it is never coloured white |
| `CycleCollector.CollectedIs` | NeoSource/NeoVM.cpp:1725-1877 | from what the phases leave: exactly the doomed objects are destroyed, owned objects live, survivors keep their references, counts that were positive and survived stay positive, no survivor refers to a destroyed object |
| `CycleCollector.StillOwned` | NeoSource/NeoVM.cpp:1888-1908 | an object owned from outside before a collection is owned after it, over the references that are left |
| `CycleCollector.KeptAgain` | NeoSource/NeoVM.cpp:1894-1903 | the guarantees of one collection compose: they hold over any number of passes |
| `CycleCollector.CNeoVM.CollectUnreachableCycleCandidates` | NeoSource/NeoVM.cpp:1599-1877 | one collection over up to a budget of candidates: takes exactly that many or all, the first in pop order; finds the white objects they reach and destroys exactly what those doom; every survivor that lost a reference, may refer to containers and is no module is in the queue of its kind afterwards, and of the others only earlier candidates are; if the candidates led to everything unreachable before, they do again; it either frees an object or leaves the queues as the pops left them |
| `CycleCollector.CNeoVM.CollectPass` | NeoSource/NeoVM.cpp:1897-1902 | one turn of the loop destroys an object or shortens the queues by what it processed: all candidates if forced, else up to 16, or a fiftieth rounded up if that is more |
| `CycleCollector.CNeoVM.CollectCycles` | NeoSource/NeoVM.cpp:1888-1908 | a forced collection ends with every candidate queue empty, and if the candidates led to everything unreachable, whatever is still referred to afterwards is reached from a holder outside or a native root; an unforced one takes up to 16 candidates, or a fiftieth if that is more; any collection keeps the invariant, keeps owned objects alive with their references, and is refused while one is running |
| `CandidateSpec.PopSucceeds` | NeoSource/NeoVM.cpp:1553-1588 | a pop succeeds if and only if some queue holds a candidate, and lowers the total by one |
| `CandidateSpec.RoundRobinIsFair` | NeoSource/NeoVM.cpp:1558-1587 | no type starves: the head of a non-empty queue is popped within seven pops |
| `IntrusiveQueues.Unlink` | NeoSource/NeoVM.cpp:552-566 | unlinking removes one element from the doubly linked list, wherever it is, and marks only that one as outside |
| `IntrusiveQueues.CandidateQueues.Append` | NeoSource/NeoVM.cpp:538-549 | appends at the end of the queue of its kind, after all that are there; one that is queued already, which its previous link tells, stays where it is |
| `IntrusiveQueues.CandidateQueues.Remove` | NeoSource/NeoVM.cpp:1532-1551 | acts as removal from that sequence and keeps the shared count the sum of all lengths |
| `IntrusiveQueues.CandidateQueues.PopFront` | NeoSource/NeoVM.cpp:569-575 | takes the head of one queue, or nothing if it is empty |
| `IntrusiveQueues.CandidateQueues.Pop` | NeoSource/NeoVM.cpp:1553-1588 | refines the round-robin pop on sequences; fails exactly when the shared count is zero |
| `HashCapacity.MaskIsRemainder` | NeoSource/NeoVMMap.cpp:98-107 | the mask of a power-of-two table computes the remainder of the hash |
| `HashCapacity.GrowHashCapacity` | NeoSource/NeoVMHash.h:21-27 | doubles, from nothing to two, keeps a power of two and fails exactly when it would exceed the limit |
| `HashCapacity.HashCapacityForItems` | NeoSource/NeoVMHash.h:29-37 | the least capacity at a load of three quarters; the only failure is a count above the item limit, the doubling inside never fails |
| `ScatterChains.Displaced` | NeoSource/NeoVMMap.cpp:150-164 | moving a resident that is not in its primary slot keeps every chain: acyclic, disjoint, headed at its primary slot, covering all used slots |
| `ScatterChains.LinkedBehind` | NeoSource/NeoVMMap.cpp:166-169 | linking a new node behind the head keeps the chains |
| `ScatterChains.Bypassed` | NeoSource/NeoVMMap.cpp:413-417 | bypassing a node that is not the head keeps the chains |
| `ScatterChains.HeadReplaced` | NeoSource/NeoVMMap.cpp:422-429 | moving the second node into a removed head's slot keeps the chains |
| `ScriptMap.MapInfo.FindNodeIndex` | NeoSource/NeoVMMap.cpp:98-119 | finds a slot exactly when the key is in the map, with the slot linked before it |
| `ScriptMap.MapInfo.Find` | NeoSource/NeoVMMap.cpp:436-443 | returns exactly what a mathematical map would |
| `ScriptMap.MapInfo.FindFreeNodeIndex` | NeoSource/NeoVMMap.cpp:121-135 | the cursor only moves down; it fails only when every slot below it is used, and passes over used slots only |
| `ScriptMap.MapInfo.DisplaceResident` | NeoSource/NeoVMMap.cpp:150-164 | the displacement walk ends at the predecessor, the resident is moved and relinked, the primary slot is free for the new key |
| `ScriptMap.MapInfo.InsertNewNode` | NeoSource/NeoVMMap.cpp:137-170 | reserves a slot for a key, and fails only if the primary slot and every slot below the cursor are used, with the array as it was |
| `ScriptMap.MapInfo.PlaceNew` | NeoSource/NeoVMMap.cpp:197-212 | as long as nothing was removed since the last rehash a table that is not full always has room |
| `ScriptMap.MapInfo.CarryOver` | NeoSource/NeoVMMap.cpp:192-213 | a rehash places every node of the old array: its failure branch is unreachable |
| `ScriptMap.MapInfo.ReMap` | NeoSource/NeoVMMap.cpp:172-223 | keeps the contents, chooses a sufficient power of two, and fails exactly when the capacity limit is exceeded, before anything changes |
| `ScriptMap.MapInfo.Rebuild` | NeoSource/NeoVMMap.cpp:305-313 | the retry inside an insertion never needs a larger table, so its grow branch is unreachable |
| `ScriptMap.MapInfo.PlaceOrRebuild` | NeoSource/NeoVMMap.cpp:299-319 | a slot for a new key is found at once or after one rebuild: the second failure is unreachable |
| `ScriptMap.MapInfo.Insert` | NeoSource/NeoVMMap.cpp:284-328 | the slot for a key; fails exactly when the load calls for a table beyond the limit, and then changes nothing; the table doubles exactly at a load above three quarters; the version goes up exactly if the key is new, so that the array never moves or changes under an iteration unnoticed |
| `ScriptMap.MapInfo.InsertValue` | NeoSource/NeoVMMap.cpp:359-368 | updates the mathematical map at one key; the version goes up exactly if the key is new |
| `ScriptMap.MapInfo.Remove` | NeoSource/NeoVMMap.cpp:395-434 | removes the key from the mathematical map and counts one mutation; an absent key changes neither array nor version |
| `ScriptMap.MapInfo.Clear` | NeoSource/NeoVMMap.cpp:54-67 | empties the map and keeps the array; when it held items it counts one mutation and the cursor is wound back, so that no later insertion can fail for lack of it |
| `ScriptMap.MapInfo.Reserve` | NeoSource/NeoVMMap.cpp:274-282 | keeps the contents and makes room at the allowed load, in the least table that has it; fails exactly above the item limit; a new array counts one mutation |
| `ScriptMap.MapInfo.ToListKeys` | NeoSource/NeoVMMap.cpp:225-256 | iteration lists every key exactly once |
| `ProbeRing.GapExists` | NeoSource/NeoVM.cpp:799-811 | a ring that is not full has a gap, so every probe loop ends |
| `ProbeRing.RepairStep` | NeoSource/NeoVM.cpp:834-845 | reinserting one string of the cluster behind a hole keeps every other string findable from its home |
| `StringIntern.CNeoVM.FindInternedString` | NeoSource/NeoVM.cpp:740-754 | finds a string of the text exactly when one is in the table |
| `StringIntern.CNeoVM.RehashStringIntern` | NeoSource/NeoVM.cpp:771-797 | keeps the strings and their count in the least power of two of at least 64 that is not below the capacity asked for |
| `StringIntern.CNeoVM.InsertInternedString` | NeoSource/NeoVM.cpp:799-813 | adds exactly one string; the table starts with 64 slots, doubles exactly at a load above three quarters, and else keeps its size |
| `StringIntern.CNeoVM.Intern` | NeoSource/NeoVM.cpp:726-738 | the canonical string of a text: the one there is, else a new one, and never a second |
| `StringIntern.CNeoVM.CloseHole` | NeoSource/NeoVM.cpp:829-845 | deletion without tombstones: the cluster loop ends, and the table holds the others, all findable |
| `StringIntern.CNeoVM.Shrink` | NeoSource/NeoVM.cpp:847-851 | rehashes exactly when the least sufficient capacity is less than half the present one, and then to that capacity |
| `StringIntern.CNeoVM.RemoveInternedString` | NeoSource/NeoVM.cpp:815-852 | removes exactly that string; one that is not in the table changes nothing |
| `ShortCircuit.ChainExec` | NeoSource/NeoParser.cpp:3957-4033 | backpatched code of any chain of atoms joined by && and or-operators runs the atoms left to right, each at most once and only when needed, and ends at the true or the false target as the OR of the AND groups says |
| `ShortCircuit.BranchCodeComputesMeaning` | NeoSource/NeoParser.cpp:4035-4054 | branch form without fusion: the body is reached if and only if the chain is true, with the same evaluations in the same order, traps included |
| `ShortCircuit.ValueCodeComputesMeaning` | NeoSource/NeoParser.cpp:4056-4076 | value form: the result slot holds the chain's value and nothing else changes |
| `ShortCircuit.FittingPairDecides` | NeoSource/NeoParser.cpp:3911-3942 | two comparisons that bound one slot from both sides are decided by one range test in the right order, whatever side each is written on |
| `ShortCircuit.FusibleIsBounded` | NeoSource/NeoParser.cpp:3827-3861 | the readings of two emitted jumps fit exactly if one of their comparisons bounds a slot from below and the other bounds it from above |
| `ShortCircuit.FusedCodeComputesMeaning` | NeoSource/NeoParser.cpp:3863-3955 | with two atoms the fused code means what the chain means, in both shapes |
| `ShortCircuit.FusedCodeExactly` | NeoSource/NeoParser.cpp:3872-3880 | with more atoms in the first group, in every state, faults included: fused code goes where it should if and only if the atoms before the pair are true or fault or the last comparison is true; it makes the same evaluations if and only if those atoms are true or fault; otherwise it reaches the body, and exactly the last comparison is what it leaves out |
| `ShortCircuit.FusedCodeReachesBodyOnFalseChain` | NeoSource/NeoParser.cpp:3872-3880 | counterexample: for `flag && x < lo or-operators x >= hi` the fused code runs the body though the chain is false |
| `ShortCircuit.FusedCodeMissesFault` | NeoSource/NeoParser.cpp:3872-3880 | counterexample: with the flag false and x no number the chain faults, and the fused code runs the body without a fault |
| `ShortCircuit.FlagOrRangeEmitted` | NeoSource/NeoParser.cpp:4035-4054 | the emitter itself writes such code for that chain: with the flag false what it emits reaches the body from every state, whatever the last comparison, which is the chain's value there |
| `ShortCircuit.Emitter.LowerChain` | NeoSource/NeoParser.cpp:3966-4033 | the scan emits every atom and patches the false jumps of a finished group to the next group |
| `ShortCircuit.Emitter.FindPair` | NeoSource/NeoParser.cpp:3911-3930 | the nested loops find the first fitting pair of readings if there is one |
| `ShortCircuit.Emitter.TryFuseRangeJump` | NeoSource/NeoParser.cpp:3863-3955 | fuses exactly if the table is not full, the jump lists have one of the two shapes, and the last two comparisons stand side by side and bound one slot, one from below and one from above; the range test then decides both; otherwise nothing changes |
| `ShortCircuit.Emitter.ParseBranch` | NeoSource/NeoParser.cpp:4035-4054 | whatever target the caller patches in, the emitted code has the shape the meaning lemmas need; it is fused exactly if the chain can be |
| `ShortCircuit.Emitter.ParseValue` | NeoSource/NeoParser.cpp:4056-4076 | emits value code for the chain |
| `HoistedCode.HoistingPreservesMeaning` | NeoSource/NeoParser.cpp:6096-6121 | for every meaning of the operations, every start and every number of steps, the rewritten function with its prologue, in a frame with hidden slots among the others, is where the original is in its own frame, finds the same values in every slot the original can name and above the frame, keeps every hidden slot, and ends with the same result |
| `HoistedCode.RewritingRenamesOperands` | NeoSource/NeoParser.cpp:5944-5972 | which operands are renamed, operation by operation: MOV, MOV_MINUS, ADD2, TOINT and CLT_READ in the second field, ADD3, SUB3, MUL3, AND, compare jumps, STR_ADD and CLT_MOV in the second and third; every other operation, and every first field, stays as it is |
| `HoistedCode.WritesOnlyNamed` | NeoSource/NeoExport.cpp:206-441 | the frame condition: whatever the machine, an operation changes no slot of the frame other than those its operands name |
| `HoistedCode.PutAllKeeps` | NeoSource/NeoParser.cpp:6057-6063 | writing any slots the original function can name, however many, leaves every hidden slot alone and the two frames alike |
| `HoistedCode.PutWindowKeeps` | NeoSource/NeoExport.cpp:70-91 | whatever a call leaves in its arguments, its return slot and above lies above every hidden slot |
| `HoistedCode.OtherFunctionsUnaffected` | NeoSource/NeoParser.cpp:6080-6092 | rewriting a function's range descriptors changes no other function's runs |
| `HoistedCode.PrologueLoads` | NeoSource/NeoParser.cpp:6109-6119 | the MOV prologue, run in the frame the function runs in, leaves every hidden slot with its constant and all else the function can name as it was |
| `HoistedCode.FrameSlotsAreApart` | NeoSource/NeoExport.cpp:60-107 | final frame slots never overlap, for any two operands a function can name: arguments, locals and hidden slots below temporaries, those below the return slot, that below call arguments; the proofs that writes spare hidden slots rest on it |
| `LoopHoisting.ChosenFromRank` | NeoSource/NeoParser.cpp:6049-6064 | the constants taken are the best ones, by number of uses in loops and then by number, in that order, up to the limits of 32 and of free slots |
| `LoopHoisting.SFunctions.MarkLoops` | NeoSource/NeoParser.cpp:5989-6004 | marks exactly the operations between a relative jump backward and its target |
| `LoopHoisting.RepeatedIsInLoop` | NeoSource/NeoParser.cpp:5989-6004 | whatever the operations mean, as long as only relative jumps go back and by their own offset: what one call executes twice lies in a marked loop |
| `LoopHoisting.SFunctions.CountUses` | NeoSource/NeoParser.cpp:6008-6031 | counts exactly the reads of each constant inside loops, range bounds of the function's own descriptors included |
| `LoopHoisting.SFunctions.RankCandidates` | NeoSource/NeoParser.cpp:6035-6049 | the loadable constants used in loops, ordered by uses, then by index |
| `LoopHoisting.SFunctions.AllocateSlots` | NeoSource/NeoParser.cpp:6056-6064 | hands out consecutive local slots, which the widened frame has and the old one has not, stopping only when they run out |
| `LoopHoisting.SFunctions.ChooseConstants` | NeoSource/NeoParser.cpp:5989-6064 | the choice as a whole: nothing without loops or uses, else the best constants with fresh slots |
| `LoopHoisting.SFunctions.HoistLoopConstants` | NeoSource/NeoParser.cpp:5980-6094 | the in-place rewrite, the descriptors, the slots and the prologue meet all that the meaning lemma asks; of each operation only the listed operands are renamed, so no immediate, offset or count is ever touched; the constants are the best ones, in order |
| `ExpressionTrees.TreeFits` | NeoSource/NeoParser.cpp:3255-3335 | the tree defined by the last loosest operator covers the expression and respects precedence and left associativity |
| `ExpressionTrees.PrecedenceOfC` | NeoSource/NeoParser.cpp:696-741 | the operator table orders any two operators as C does, concatenation among the shifts |
| `ExpressionTrees.RespectingTreeIsUnique` | NeoSource/NeoParser.cpp:3255-3335 | only one tree over an expression respects precedence and left associativity |
| `ExpressionParsers.TryFoldLiteralBinOp` | NeoSource/NeoParser.cpp:464-547 | two literals fold exactly when the operation is defined on them; the value is congruent to the sum, difference or product modulo 2 to the 64 and in range, the quotient and remainder toward zero, or has at every place the conjunction, disjunction or difference of the bits |
| `ExpressionParsers.ExpressionJob.Reduce` | NeoSource/NeoParser.cpp:3255-3335 | merges every operator at least as tight as the bound, tightest first, and keeps the operands respecting subtrees |
| `ExpressionParsers.ExpressionJob.Push` | NeoSource/NeoParser.cpp:3440-3448 | shifting an operator after the matching reduction keeps the stacks in order |
| `ExpressionParsers.ExpressionJob.Parse` | NeoSource/NeoParser.cpp:3729-3743 | the operator-stack parser builds the unique respecting tree; its folded value is known exactly when the tree has one |
| `ExpressionParsers.TablesAgree` | NeoSource/NeoParser.cpp:5218-5230 | the two precedence tables order the shared operators alike |
| `ExpressionParsers.EvalConstBinOp` | NeoSource/NeoParser.cpp:5232-5306 | has a value exactly when the divisor is not zero, the quotient is in range and the shift is below 64, and then the value the operation means |
| `IntegerArithmetic.ApplyMeans` | NeoSource/NeoParser.cpp:5232-5306 | the computed values are what the operations mean: congruence modulo 2 to the 64, quotient and remainder laws, and for each bit operator its own law on the 64 bits |
| `IntegerArithmetic.OneMeaning` | NeoSource/NeoVMInternal.h:25-36 | each operation means one value only: two values that meet its laws are equal |
| `IntegerArithmetic.BitWiseJoins` | NeoSource/NeoParser.cpp:519-530 | the joined number has at every place, sign places included, the conjunction, the disjunction or the difference of the bits there |
| `IntegerArithmetic.BitsSum` | NeoSource/NeoParser.cpp:519-530 | conjunction and disjunction add up to the sum of the two numbers, and differ by their exclusive disjunction |
| `IntegerArithmetic.BitIsDigit` | NeoSource/NeoParser.cpp:519-530 | bit `k` of a number, negative ones included, is the last binary digit of the number divided by 2 to the `k` |
| `ExpressionParsers.ConstJob.ParseConstExpr` | NeoSource/NeoParser.cpp:5308-5329 | precedence climbing succeeds exactly when the unique respecting tree over the operands it reads has a value, and gives that value |
| `ExpressionParsers.ConstJob.ParseRightSide` | NeoSource/NeoParser.cpp:5323-5328 | one turn of the climbing loop extends the tree by an operator and its right side |
| `ExpressionParsers.BothParsersAgree` | NeoSource/NeoParser.cpp:5308-5329 | both parsers give a flat expression over the shared operators the same tree and, its operands being integer literals or not known, the same value, the one the tree has in script arithmetic |
| `StructuredCode.AlwaysReturnsIsSound` | NeoSource/NeoParser.cpp:5874-5889 | a block reported to always return never falls through and never leaves by break or continue |
| `StructuredCode.AlwaysReturnsIsExact` | NeoSource/NeoParser.cpp:5874-5889 | of blocks without jumps out of them exactly those are reported that return whenever they end, whatever their actions and conditions mean |
| `StructuredCode.CodeFollows` | NeoSource/NeoParser.cpp:4716-5042 | whatever a statement does, its code does, ending where the statement's exit says |
| `StructuredCode.CodeProgress` | NeoSource/NeoParser.cpp:4716-5042 | conversely, wherever the code is after any number of steps, it is inside the statement or at the exit the statement takes |
| `StructuredCode.NeverFallsOff` | NeoSource/NeoParser.cpp:6160-6162 | execution never runs off the end of a function, whether or not the final RETURN was dropped |
| `StructuredCode.FunctionComputesBody` | NeoSource/NeoParser.cpp:6142-6165 | a call halts with a result if and only if the body ends with it, in the same state |
| `StructuredCode.DroppingChangesNothing` | NeoSource/NeoParser.cpp:4985-5034 | dropping the jump over else and the final RETURN changes the result of no call |
| `StructuredCode.ResolvedAt` | NeoSource/NeoParser.h:753-758 | patching exactly the listed open jumps turns open loop code into closed code |
| `AlwaysReturns.SFunctionInfo.ParseStatement` | NeoSource/NeoParser.cpp:5639-5883 | refuses exactly a break or continue outside every loop: inside a loop every statement is accepted, elsewhere every one without such jumps; writes the statement's code, and collects its open jumps |
| `AlwaysReturns.SFunctionInfo.ParseMiddleArea` | NeoSource/NeoParser.cpp:5618-5891 | refuses exactly a break or continue outside every loop; reports a block to always return exactly when some statement does and the lists of open jumps did not grow |
| `AlwaysReturns.SFunctionInfo.ParseIfElse` | NeoSource/NeoParser.cpp:5005-5034 | writes the jump over else exactly when the first block may fall through: the code is one operation shorter otherwise |
| `AlwaysReturns.SFunctionInfo.ParseWhile` | NeoSource/NeoParser.cpp:4716-4851 | accepts every loop and writes it with its condition behind the body |
| `AlwaysReturns.SFunctionInfo.CloseLoop` | NeoSource/NeoParser.cpp:4808-4836 | resolves the entry jump, breaks and continues of a loop |
| `AlwaysReturns.SFunctionInfo.ParseFunctionBody` | NeoSource/NeoParser.cpp:6142-6165 | refuses exactly a body with a break or continue outside every loop, and writes the final RETURN exactly when the body may end without returning |
| `HandleTable.Table.Get` | NeoSource/NeoScriptShim.cpp:56-62 | any handle resolves exactly if it was handed out and not removed since, and then to its item |
| `HandleTable.Table.Add` | NeoSource/NeoScriptShim.cpp:47-55 | hands out a handle never handed out before; no other handle resolves differently |
| `HandleTable.Table.Remove` | NeoSource/NeoScriptShim.cpp:64-71 | a removed handle never resolves again; no other handle resolves differently |
| `HostProtocol.RunsAreSafe` | NeoSource/NeoScriptShim.cpp:1254-1341 | in every interleaving, Invocations assigned or moved from while their own call runs included: a prepared token is live; every lease of the context is closed once, in order, and only the present one is open, for a run, a stopped run or a pending result; a destroyed instance has no token left; a pending result belongs to a live token that is not prepared if and only if its call's Invocation held such a token when the call ended or stopped |
| `HostProtocol.UndisturbedRunsAreSafe` | NeoSource/NeoScriptShim.cpp:1254-1341 | in every interleaving in which the host neither assigns nor moves from the Invocation of a running call: the prepared token is neither pending nor running, the pending flag is set exactly when a live token owns a result, the open lease belongs to a run or to that token, and every result goes to the token that started its call |
| `HostProtocol.AssignedTokenGetsResult` | NeoSource/NeoScriptShim.cpp:1983-1987 | counterexample run: a function called by the script prepares token 2 and assigns it to the Invocation that runs; token 2 is then prepared and pending at once, and reads what the call of token 1 returned |
| `HostProtocol.MovedTokenLeavesLease` | NeoSource/NeoScriptShim.cpp:2112-2118 | counterexample run: the running Invocation is moved from and its token given up after the call; the context stays borrowed with no token left |
| `HostProtocol.RunsStayValid` | NeoSource/NeoScriptShim.cpp:1254-1425 | every step keeps the invariant: call, invoke, return, resume, sliced run, cancel, destruction of tokens and instances, and assignment to and moves from an Invocation whose call runs, with tokens of this instance, of another, or none; no token is ever in two Invocations |
| `HostProtocol.ReadsOwnResultExactly` | NeoSource/NeoScriptShim.cpp:1974-1980 | over the history of an instance: a token that can read a result reads its own if and only if its call's Invocation still held it when the call ended or stopped, and no step since has written the return slot: the script going on, its run ending, or a host function setting the value it returns; a call that held the context itself finds its result in the slot as long as it is pending |
| `HostProtocol.NestedResultGoesStale` | NeoSource/NeoScriptShim.cpp:2111-2119 | two runs in which a nested call's token still answers after the outer run went on, once with the context gone |
| `HostProtocol.ReturnValueOverwritesResult` | NeoSource/NeoScriptShim.cpp:1583-1587 | counterexample run: a function called by the script makes a nested call and then sets its own return value; the nested call's token still answers, with that value |
| `HostProtocol.ArgumentsKeptExactly` | NeoSource/NeoScriptShim.cpp:1350-1367 | the prepared arguments of an armed token survive every step of others except a cancel, which drops them and leaves the token armed |
| `HostProtocol.PreparedArgumentsAreLost` | NeoSource/NeoScriptShim.cpp:1350-1367 | a run from the initial state: an argument is given, the prepared call is cancelled, and the token still starts it, without the argument |
| `HostProtocol.PreparedWithGiven` | NeoSource/NeoScriptShim.cpp:1990-2023 | over all histories: an armed token has exactly the values given to it, in the order in which they were given, since the last cancellation that dropped them |
| `HostProtocol.CallStartsWithGiven` | NeoSource/NeoScriptShim.cpp:2025-2066 | over all histories: a call starts with exactly those values, in that order, on top of what was running |
| `HostProtocol.CallKeeps` | NeoSource/NeoScriptShim.cpp:1265-1295 | a new token is fresh and armed, or nothing but the pending result changes |
| `HostCalls.InstanceRec.FlushPendingCall` | NeoSource/NeoScriptShim.cpp:1254-1263 | nobody can read a result any more; the open lease is closed, once, exactly if the pending result's call had borrowed it; tokens and runs are untouched, the invariant kept |
| `HostCalls.InstanceRec.Call` | NeoSource/NeoScriptShim.cpp:1265-1295 | gives a token exactly if none is armed, the worker is not stopped and the instance is not being set up; it is new, armed and without arguments, and no result is readable; the invariant is kept |
| `HostCalls.InstanceRec.ArgInt` | NeoSource/NeoScriptShim.cpp:1990 | puts the value behind the arguments already given, if the token is armed, and changes nothing else |
| `HostCalls.InstanceRec.BeginHostCall` | NeoSource/NeoVMWorker.cpp:1086-1131 | opens one lease exactly when none is open and the pool has a context, nests exactly in a run that is not stopped, and changes nothing otherwise |
| `HostCalls.InstanceRec.EndHostCall` | NeoSource/NeoVMWorker.cpp:1132-1152 | closes the open lease exactly if the call had borrowed it and did not stop; every lease stays closed at most once, in order |
| `HostCalls.InstanceRec.Invoke` | NeoSource/NeoScriptShim.cpp:2025-2066 | runs exactly if the token is armed and the call can nest or borrow: then on top of what was running, with the prepared arguments as they are, in a new lease exactly if nothing was running; else it fails; nothing stays armed, the invariant is kept |
| `HostCalls.InstanceRec.InvokeReturned` | NeoSource/NeoScriptShim.cpp:2085-2120 | the innermost call ends: the token its Invocation holds by then, and no other, can read the result, exactly if the call completed, and then the return slot has this call's result; no lease is closed; the invariant is kept |
| `HostCalls.InstanceRec.InvFinish` | NeoSource/NeoScriptShim.cpp:1953-1967 | a dying token, its call running or not, gives up what it owns: its arming, its pending result with the lease, its suspended call; what any other token can read stays so; the invariant is kept, save for the Invocation of a running call that still names the token |
| `HostCalls.InstanceRec.MoveAssign` | NeoSource/NeoScriptShim.cpp:1983-1987 | assignment to the Invocation of a running call gives up the token it held and nothing else, empties the Invocation that held the new one, touches no lease and no other result, and keeps the invariant |
| `HostCalls.InstanceRec.InvReturn` | NeoSource/NeoScriptShim.cpp:1974-1980 | never two tokens may read at once; while Invocations of running calls are left alone, only a living one that is neither armed nor running |
| `HostCalls.InstanceRec.Resume` | NeoSource/NeoScriptShim.cpp:1342-1349 | a stopped run, and only that, goes on, in the lease it had, and only while no token is armed and no result pending; the invariant is kept |
| `HostCalls.InstanceRec.ResumeReturned` | NeoSource/NeoScriptShim.cpp:1306-1341 | a suspended host call that completes while its token lives makes its result readable in the same lease; one that stops again keeps the lease; every other ending closes it; the invariant is kept |
| `HostCalls.InstanceRec.StartSliced` | NeoSource/NeoScriptShim.cpp:1369-1394 | a sliced run starts exactly on an idle instance, in a new lease, with no result readable; the invariant is kept |
| `HostCalls.InstanceRec.Cancel` | NeoSource/NeoScriptShim.cpp:1350-1367 | refused exactly while anything runs; otherwise the open lease is closed and nothing is left to resume, read or pass as argument; the invariant is kept |
| `HostCalls.InstanceRec.Destroy` | NeoSource/NeoScriptShim.cpp:1037-1066 | an instance is destroyed exactly when no token lives, nothing runs, no function called by a script is active and the runtime is not setting the instance up; it then holds no context; the invariant is kept |
| `RequestCounts.RequestKeeps` | NeoSource/NeoLib.cpp:1891-1898 | a new request is counted for its living owner and for nobody else |
| `RequestCounts.TakeKeeps` | NeoSource/NeoVM.cpp:1932-1934 | the thread taking a job changes no count |
| `RequestCounts.FinishKeeps` | NeoSource/NeoQueue.h:27-34 | a request entering the completed queue changes no count |
| `RequestCounts.ConsumeKeeps` | NeoSource/NeoVM.cpp:2026-2033 | consuming a completed request lowers exactly the count it was in, and that count was positive |
| `RequestCounts.DeathKeeps` | NeoSource/NeoVM.cpp:2013-2017 | a worker's death turns exactly its unconsumed requests into orphans |
| `RequestCounts.DeathOrphans` | NeoSource/NeoVM.cpp:2013-2017 | the orphan count grows by exactly the dead worker's requests |
| `AsyncRequests.CNeoVM.AddHttpRequest` | NeoSource/NeoVM.cpp:1980-1985 | a request enters the job queue, unsignalled |
| `AsyncRequests.CNeoVM.WaitAndPop` | NeoSource/NeoQueue.h:36-41 | the thread takes the oldest job and nothing else |
| `AsyncRequests.CNeoVM.PushHoldingLock` | NeoSource/NeoQueue.h:29-31 | the thread locks the completed queue and puts its job at the end, its event still unset |
| `AsyncRequests.CNeoVM.PublishAndUnlock` | NeoSource/NeoQueue.h:32-34 | then the event of that request, and no other, is set and the lock given up |
| `AsyncRequests.CNeoVM.ThreadRuns` | NeoSource/NeoVM.cpp:1928-1978 | any thread activity between two steps, also between a push and its publication, loses, duplicates and consumes nothing and unsets no event; it does what its steps do one after the other |
| `AsyncRequests.JobsAreServed` | NeoSource/NeoVM.cpp:1928-1978 | progress: left to itself the thread completes as many jobs as it makes turns, in the order in which they were queued, and sets exactly their events |
| `AsyncRequests.CNeoVM.TryPopMatching` | NeoSource/NeoQueue.h:52-61 | the first completed request that matches; once the lock is had, nothing pushed is unpublished |
| `AsyncRequests.CNeoVM.DiscardOrphanedAsync` | NeoSource/NeoVM.cpp:1989-1998 | at its last search no completed request of a dead worker is left; only orphans were consumed, and nobody's turn changes, with the thread running between the searches |
| `AsyncRequests.CNeoVM.PopAsyncInfo` | NeoSource/NeoVM.cpp:2020-2035 | gives a worker its own oldest completed request, published and not consumed before, and nothing only if it has none completed; all orphans completed at the call are consumed, and nothing else is; the thread runs before every search |
| `AsyncRequests.CNeoVM.DiscardAsyncByWorker` | NeoSource/NeoVM.cpp:2002-2018 | a dying worker's requests completed at the call are consumed and what of its is still open becomes orphans, exactly counted, with the thread running between any two searches and before the count is handed over; the other workers' turns are kept |
| `AsyncRequests.CNeoVM.AsyncWait` | NeoSource/NeoLib.cpp:1967-1988 | the event is read without a lock while the thread runs: once it is set the request is in the completed queue or consumed, and a completed request whose event is not set is the one being published |
| `MergeSteps.Taken` | NeoSource/NeoLib.cpp:856-879 | one step of a merge keeps what was taken a rearrangement of what the runs lost, and for a strict weak order sorted and stable |
| `MergeSteps.RunsGrow` | NeoSource/NeoLib.cpp:847-853 | a merged block extends the runs of the next pass |
| `MergeSteps.NextTwoRuns` | NeoSource/NeoLib.cpp:849-853 | the two runs a step of a pass merges, the second possibly short or empty |
| `MergeSteps.PickPermutes` | NeoSource/NeoLib.cpp:885-887 | rearranging indices rearranges the values: the same multiset |
| `MergeSteps.SortedStably` | NeoSource/NeoLib.cpp:844-888 | the final order means: the same values, none before a smaller one, equivalent ones in their old order |
| `MergeSteps.StableOrderIsUnique` | NeoSource/NeoLib.cpp:841-846 | there is only one stable sorting: any two orders of the same indices that are in order are equal |
| `ScriptSort.ListInfo.TestCall` | NeoSource/NeoLib.cpp:861-875 | what ends a sort: a fault, a change of the list's shape, an answer that is not a bool, in this order |
| `ScriptSort.ListInfo.MergeOne` | NeoSource/NeoLib.cpp:855-879 | asks the comparator only while both runs have an index left, and stores the index it chose |
| `ScriptSort.ListInfo.MergeRuns` | NeoSource/NeoLib.cpp:849-880 | merges two runs into a block, for any answers |
| `ScriptSort.ListInfo.MergePass` | NeoSource/NeoLib.cpp:849-881 | one pass doubles the width of the runs |
| `ScriptSort.ListInfo.WriteBack` | NeoSource/NeoLib.cpp:883-889 | writes the values in sorted order and counts one mutation |
| `ScriptSort.ListInfo.Sort` | NeoSource/NeoLib.cpp:813-892 | ends for every comparator; on success the list is the snapshot rearranged, and if the answers are a strict weak order no value stands before a smaller one and equivalent ones keep their order; it succeeds if every answer is a bool and the shape never changes; on failure the contents are those the comparator left |
| `UtcCalendars.DayNumberCounts` | NeoSource/NeoTime.cpp:234-243 | the day formula counts one for every day of the calendar as its months are printed, leap days and year ends included, and 1 January 1970 as zero; the dates accepted are exactly the printed ones |
| `UtcCalendars.DateIsDetermined` | NeoSource/NeoTime.cpp:234-260 | no two dates have the same day number |
| `UtcCalendars.FieldsAreDetermined` | NeoSource/NeoTime.cpp:249-260 | no two points in time have the same milliseconds |
| `UtcCalendars.ValidIsInRange` | NeoSource/NeoTime.cpp:245-260 | all valid parts lie within the millisecond limits |
| `UtcTime.MakeUtc` | NeoSource/NeoTime.cpp:249-260 | accepts exactly the points in time of the years 1900 to 9999 and gives their milliseconds |
| `UtcTime.FindYear` | NeoSource/NeoTime.cpp:411-418 | the binary search finds the year of a day |
| `UtcTime.FindMonth` | NeoSource/NeoTime.cpp:421-430 | the month loop finds the month and day of a day of the year |
| `UtcTime.UtcCalendar` | NeoSource/NeoTime.cpp:403-437 | accepts exactly the seconds of those years and gives the date, time of day, weekday and day of the year they are |
| `UtcTime.ReadUtc` | NeoSource/NeoTime.cpp:262-272 | splits milliseconds, negative ones included, into parts that mean them |
| `UtcTime.PartsAndBack` | NeoSource/NeoTime.cpp:249-260 | for all valid parts: the parts of their milliseconds are the same parts |
| `UtcTime.TimeAndBack` | NeoSource/NeoTime.cpp:262-272 | for every millisecond of the years 1900 to 9999: its parts make it again |
| `DecimalText.ReadWritten` | NeoSource/NeoTime.cpp:274-283 | reading a zero-padded number gives the number written |
| `DecimalText.WriteRead` | NeoSource/NeoTime.cpp:274-283 | writing what was read from digits gives the digits |
| `DecimalText.Digits` | NeoSource/NeoTime.cpp:274-283 | the loop reads the decimal number, or -1 if a character is not a digit |
| `UtcText.WrittenReads` | NeoSource/NeoTime.cpp:350-374 | a text that writes a time reads as that time |
| `UtcText.ReadIsWritten` | NeoSource/NeoTime.cpp:350-374 | a text that reads as a valid time is that time written out, none of its digits lost |
| `UtcText.EpochWrites` | Tests/time_regression.cpp:151-153 | the first second of the epoch is written 1970-01-01T00:00:00, followed by the tenths, hundredths or thousandths that its milliseconds are |
| `UtcText.UtcFormatMilliseconds` | NeoSource/NeoTime.cpp:339-348 | the text writes the time with three digits of fraction |
| `UtcText.UtcParseMilliseconds` | NeoSource/NeoTime.cpp:350-374 | accepts exactly the texts that write a time of those years with none to three digits of fraction, which are tenths, hundredths and thousandths, and gives its milliseconds |
| `UtcText.TextAndBack` | NeoSource/NeoTime.cpp:339-374 | the text of a time parses as that time |
| `PackedBits.OnlyThatBit` | NeoSource/NeoVMArray.h:106-118 | writing one bit of a byte leaves the other seven |
| `PackedBits.MaskIsShifted` | NeoSource/NeoVMArray.h:106-118 | the first of eight booleans is the lowest bit of the byte |
| `PackedBits.FillBytes` | NeoSource/NeoVMArray.h:379-383 | filling whole bytes sets all their bits and no other |
| `BoolArrays.ArrayInfo.GetBool` | NeoSource/NeoVMArray.h:106-109 | reads the element of the sequence |
| `BoolArrays.ArrayInfo.SetBool` | NeoSource/NeoVMArray.h:110-118 | updates the sequence at one index |
| `BoolArrays.ArrayInfo.SetInitialRange` | NeoSource/NeoVMArray.h:371-388 | single bits, whole bytes, single bits: together exactly the bits of the range are written |
| `BoolArrays.ArrayInfo.Reserve` | NeoSource/NeoVMArray.h:220-238 | a larger buffer with the same contents |
| `BoolArrays.ArrayInfo.Resize` | NeoSource/NeoVMArray.h:289-310 | keeps the common prefix and fills every new element with the initial value, whatever a shrink left there; the capacity grows by half, or to the size asked for if that is more |

## Left out

- Opcode interpreter, coroutine switching, program loading, sets, UTF handling, vectors, floating point: outside the algorithms above.
- VM teardown: it destroys regardless of the graph and would weaken the invariants of the collector and of the requests.
- Wrap-around of 32-bit generations, worker ids and mutation versions.
- Collection of coroutines and modules in detail: a coroutine on a worker is a native root, and the module kind is never queued.
- Jump distance limits: the error for a jump that does not fit 16 bits is not modelled; code is assumed small enough.
- `FoldGlobalGetters` and the load-time choice of local-operand opcodes: rewriting of opcodes without changed operands.
- Fast paths of the map for integer and string keys (`FindInt`, `FindString`): the same walk with a cheaper comparison.
- Immediate operand flags in hoisting: this compiler sets none at that stage.
- Reference counts of what a slot held before a move, and the stack limit, which a wider frame reaches sooner: not part of the machine hoisting is compared in.
- The state field of a request, which `async.wait` looks at before waiting: it is written with the event.
- `for`, `foreach` and `switch` in the always-returns analysis: each reports that it does not always return; their breaks stay in lists of their own, and a `continue` inside `switch` joins the list of the loop around it, which the analysis counts like any other.
- Unary operators and parentheses in the expression parsers: such operands are leaves of a flat expression.
- Assignment operators with an element as target, and the code emitted by reductions: only trees and folded values are modelled.
- `map.sort`: the same merge loops, with answers that are not bool taken as false.
- Arrays of element types other than bool: element copies without bit arithmetic.
- Memory pages, pool statistics, allocation failure, logging, debugger, HTTP transport.
- Destruction of an Invocation object while its own call runs: undefined in C++, because `invoke` goes on using the object. Assigning to it and moving from it are modelled.
- Resetting an instance, which is destroying it and creating it anew, and running its global code, which is a sliced run that never stops.
- Writing through a view of a returned list, map or array: the result stays the call's own value.
- HostCalls.InstanceRec.Invoke: does not model time limits on nested calls, which fail like any other call.
- LoopHoisting.SFunctions.RankCandidates: `std::sort` is an insertion into a sorted list, since only the order matters.
- DecimalText.Padded: writes numbers that fit their width, which all valid parts do.
- HashCapacity.GrowHashCapacity: the exception is a result value.
