# GarnOS in Dafny

GarnOS is a small x86-64 kernel that embeds uACPI, an interpreter for the ACPI machine
language (AML). This project models the parts of the two whose correctness is hardest to see
from the code, and proves for-all statements about them. Code that updates things in place is
modelled by classes, arrays and loops; each such method is proved against a function of its
inputs or of the old state, and what the code is for is proved about that function.

| part | modules | main results |
|---|---|---|
| AML control flow | ControlFlow, Structured, Simulation, ControlFlowTheorems, ExecutionContext | the offset-and-block-stack machine computes what a structured semantics says, divergence and loop time-outs included; where Return deviates |
| Bit fields | Bits, BitCopy, BufferField, FieldUnit, FieldLayout | bit copies, buffer fields and field units refine one flat array of bits; fields of one list are independent |
| Global lock | GlobalLock | exclusion, no lost wake-up and no unreported failed try under every interleaving of OSPM, firmware and the interrupt |
| Namespace | TreeShape, Namespace, NameString, NameCreation, AbsolutePath | the iterative walk is the recursive pre-order; two name resolvers agree; printed paths find their node; what a name creates it finds |
| Operation regions | RegionLinks, RegionHandlers, RegionRuns, OpRegion, RegionPointers | every reachable state of a changing namespace links a region to the nearest handler, with exact reference counts; the linked lists behind it |
| AML mutexes | Mutexes, HeldMutexes | ownership equals the held list over every run; exactly which runs keep the order of sync levels and the serialization of methods |
| Resources | BitBuffer, ResourceVm, ResourceTable, ResourceEntry, ResourceBuffer, ResourceCodec, ResourceChain, ResourceWalk, ResourceTheorems | AML to native to AML is the identity exactly on templates whose reserved bits are zero; concatenation of templates |
| General purpose events | Gpe, GpeRegister | user counts over every run; exactly which runs keep masked and unused events off; handler installation is undone; the 8-bit masks behind it |
| Calendar | Calendar | the civil-date arithmetic is the Gregorian calendar, both ways |
| Processes | ProcessTable, ExecStack | fork, exit and waitpid keep list, family, process numbers and file counts; the exec stack decodes to its arguments |

Where the code does not do what its name or documentation says, the model follows the code.
For each deviation there is a witness, or a family of inputs that all show it, and an exact
condition:

- A Return inside a While whose blocks all end with the method starts the next iteration
  instead of leaving (witness `TailReturnNeverLeaves`, condition `ReturnLeaves`).
- A MultiNamePath of one name is not searched for above the scope by direct lookup
  (witness `CountedOneDiffers`, condition `ResolversAgree`).
- The global lock hands out the sequence number before the increment and compares with the
  one after it, so no ticket releases the lock (`TicketOffice.AcquireThenRelease`).
- Address spaces are narrowed to a byte when a handler is searched for, so a table data region
  finds none (witness `TableRegionStaysLoose`, condition `CreateKeepsInv`).
- A method that returns without releasing a mutex leaves the current sync level below it
  (witness `LeakLowersLevel`, conditions `CallKeepsLevel` and `RunKeepsLevel`).
- A recursive serialized method drops its mutex on the inner return (witness
  `RecursionDropsMutex`, conditions `ExitKeepsSerialized` and `RunKeepsSerialized`).
- A short StartDependent descriptor sets a stray flag in the byte behind it, which the next
  descriptor then overwrites (`StrayFlag`, for every such descriptor).
- Disabling an event for wake keeps its bit and clears the others (witness
  `DisableForWakeSwaps`, condition `DisableForWakeExact`).
- Byte offsets of fields have 32 bits, so a long field list wraps around (witness
  `WrappedFieldsOverlap`, condition `LayoutExact`).
- Days are multiplied by 86400 in an `int` (`UnixWraps` for every time it first affects,
  condition `UnixRoundTrip`).

A new While block's expiry is read before it is set; that this is harmless is part of
`MachineMeetsSemantics`.

## Model

Paths below `kernel/acpi/uacpi` belong to uACPI. Member names are qualified by module and class.

| member | source | states |
|---|---|---|
| ControlFlow.EncodePkgDecodes | kernel/acpi/uacpi/interpreter.c:3309-3357 | every payload below the limit of the format has a package length that the decoder reads back, whatever bytes follow |
| ControlFlow.RunAdd | kernel/acpi/uacpi/interpreter.c:5636-5661 | turns of the main loop compose |
| Simulation.Simulate | kernel/acpi/uacpi/interpreter.c:5636-5661 | from any frame about to execute the bytes of a program inside its innermost block, the machine reaches the outcome of the structured semantics with the same outer blocks, and takes at least as many turns as the semantics uses fuel |
| Simulation.SimulateLoop | kernel/acpi/uacpi/interpreter.c:1912-2006 | a While with a remembered deadline, or none yet, behaves as the structured loop with that deadline, wherever its block slot lies |
| Simulation.EnterLoop | kernel/acpi/uacpi/interpreter.c:1932-1957 | the expiry that entering a loop compares with is the loop's own deadline, although the slot is read before it is set |
| Simulation.SkipElse | kernel/acpi/uacpi/interpreter.c:3885-3930 | after a taken branch the flag makes the machine pass over exactly the Else package |
| ControlFlowTheorems.MachineMeetsSemantics | kernel/acpi/uacpi/interpreter.c:5636-5661 | for every well-nested program the machine stops with a result if and only if the structured semantics has that result |
| ControlFlowTheorems.ReturnLeaves | kernel/acpi/uacpi/interpreter.c:3932-3955 | a Return leaves the method if and only if no loop is open or the innermost block does not end with the method; otherwise the machine is at the head of the innermost loop |
| ControlFlowTheorems.MachineMeetsLanguage | kernel/acpi/uacpi/interpreter.c:4075-4095 | for programs without a Return in that place the machine stops with a result if and only if the language, in which Return leaves, gives that result |
| ControlFlowTheorems.TailReturnNeverLeaves | kernel/acpi/uacpi/interpreter.c:3932-3955 | a five-byte program that the language finishes at once and on which the machine never stops |
| ControlFlowTheorems.SafeAgrees | kernel/acpi/uacpi/interpreter.c:3932-3955 | on those programs the two readings of Return give the same outcome |
| ExecutionContext.Context.constructor | kernel/acpi/uacpi/interpreter.c:4034-4051 | a new frame has one block that spans the method |
| ExecutionContext.Context.FindLastWhile | kernel/acpi/uacpi/interpreter.c:1880-1895 | the backward search finds the innermost open loop, if any |
| ExecutionContext.Context.FrameResetPostEndBlock | kernel/acpi/uacpi/interpreter.c:1985-2006 | pops one block and finds the enclosing loop again; the popped slot keeps its contents |
| ExecutionContext.Context.MaybeEndBlock | kernel/acpi/uacpi/interpreter.c:4075-4095 | ends the innermost block exactly at its end: a loop goes back to its head, a taken If sets the flag |
| ExecutionContext.Context.BeginBlockExecution | kernel/acpi/uacpi/interpreter.c:1912-1983 | opens a block, with the loop's deadline kept across iterations, or aborts after it |
| ExecutionContext.Context.UnwindToLoop | kernel/acpi/uacpi/interpreter.c:3819-3847 | unwinding stops with the innermost loop on top and no loop forgotten |
| ExecutionContext.Context.HandleControlFlow | kernel/acpi/uacpi/interpreter.c:3819-3847 | Break goes behind the loop, Continue to its end, both fail outside a loop |
| ExecutionContext.Context.HandleConditional | kernel/acpi/uacpi/interpreter.c:3885-3930 | If and While skip their package or enter it |
| ExecutionContext.Context.HandleElse | kernel/acpi/uacpi/interpreter.c:3885-3930 | Else is skipped if the flag is set and entered otherwise |
| ExecutionContext.Context.Turn | kernel/acpi/uacpi/interpreter.c:5636-5661 | one turn of the main loop is one step of the machine of the theorems |
| ExecutionContext.Context.Execute | kernel/acpi/uacpi/interpreter.c:5636-5661 | any number of turns is that many steps of the machine of the theorems |
| BitCopy.GatherBits | kernel/acpi/uacpi/io.c:61-78 | the byte read at a misaligned offset holds exactly the next source bits and zeros |
| BitCopy.ScatterBits | kernel/acpi/uacpi/io.c:80-87 | storing up to eight bits at a misaligned offset changes exactly those bits |
| BitCopy.Copy | kernel/acpi/uacpi/io.c:45-92 | the destination bits become the source bits padded with zeros and all other bits are kept, for all offsets and lengths |
| BufferField.CutMisalignedTail | kernel/acpi/uacpi/io.c:13-23 | clears exactly the bits past the length |
| BufferField.Read | kernel/acpi/uacpi/io.c:94-126 | whether aligned or not, a buffer field read is that bit copy |
| BufferField.Write | kernel/acpi/uacpi/io.c:128-174 | whether aligned or not, a buffer field write is that bit copy |
| BufferField.WriteThenRead | kernel/acpi/uacpi/io.c:111-174 | reading back a written field gives the source, cut or zero-extended to the field |
| BufferField.ReadThenWrite | kernel/acpi/uacpi/io.c:111-174 | writing back what was read changes nothing |
| BufferField.DisjointWritesCommute | kernel/acpi/uacpi/io.c:146-174 | writes to disjoint fields commute |
| FieldUnit.UnitsIsAlignedDivision | kernel/acpi/uacpi/io.c:316-365 | the number of accesses computed by aligning up is the number of units that cover the field |
| FieldUnit.ReadMisaligned | kernel/acpi/uacpi/io.c:316-365 | the chunked read gives the field's bits, cut or zero-extended, and fails exactly if a unit lies outside the region |
| FieldUnit.ReadFast | kernel/acpi/uacpi/io.c:382-398 | the single-access read gives the same bits |
| FieldUnit.Read | kernel/acpi/uacpi/io.c:367-402 | whichever path is taken, the destination becomes the field's bits, cut or zero-extended |
| FieldUnit.Write | kernel/acpi/uacpi/io.c:404-467 | field bits become the source padded with zeros, the rest of the units follows the update rule, all else is kept; it fails exactly if a unit lies outside the region or needs an unknown rule, and says how far it came |
| FieldLayout.PreserveIsFlat | kernel/acpi/uacpi/io.c:404-467 | a Preserve write is a bit copy: exactly the field's bits change |
| FieldLayout.FieldWriteThenRead | kernel/acpi/uacpi/io.c:367-467 | reading a field just written gives the source, cut or zero-extended, for every update rule |
| FieldLayout.DisjointFieldsIndependent | kernel/acpi/uacpi/io.c:367-467 | a Preserve write, complete or not, does not change what reading a disjoint field returns |
| FieldLayout.AlignedStart | kernel/acpi/uacpi/interpreter.c:1632-1747 | eight times the aligned byte offset plus the offset in the unit is the running bit offset, for every access width |
| FieldLayout.CreateFields | kernel/acpi/uacpi/interpreter.c:1632-1805 | the fields of a list occupy the ranges that the list spells out, up to the wrap-around of 32-bit byte offsets; an unknown access width is refused, an unknown update rule is not |
| FieldLayout.TruncatedStart | kernel/acpi/uacpi/interpreter.c:1687-1696 | the 32-bit aligned byte offset and the offset in the unit locate the running bit offset modulo 2^35, for every access width |
| FieldLayout.RangesInOrder | kernel/acpi/uacpi/interpreter.c:1632-1805 | those ranges come in order and do not overlap |
| FieldLayout.LayoutExact | kernel/acpi/uacpi/interpreter.c:1632-1805 | the fields lie exactly where the list says if and only if none starts at bit 2^35 or later |
| FieldLayout.WrappedFieldsOverlap | kernel/acpi/uacpi/interpreter.c:1687-1696 | a list whose gaps add up to 2^35 bits puts its last field on its first |
| FieldLayout.ListFieldsIndependent | kernel/acpi/uacpi/interpreter.c:1632-1805 | so a Preserve write to one field of a list never changes what reading another returns, if both start below 2^35 |
| GlobalLock.InvStep | kernel/acpi/uacpi/mutex.c:17-113 | each atomic step of OSPM, firmware and the interrupt keeps the lock invariant |
| GlobalLock.InvRun | kernel/acpi/uacpi/mutex.c:17-113 | so does every interleaving |
| GlobalLock.Exclusion | kernel/acpi/uacpi/mutex.c:17-50 | at most one side owns the lock, the word says whether one does, pending implies owned, other bits never change |
| GlobalLock.NoLostWakeup | kernel/acpi/uacpi/event.c:1737-1762 | a waiter whose firmware release has happened has an event to consume or an interrupt under way |
| GlobalLock.WaiterCanWake | kernel/acpi/uacpi/mutex.c:52-100 | letting that interrupt through wakes the waiter, whatever else is in flight |
| GlobalLock.PendingSticks | kernel/acpi/uacpi/mutex.c:17-50 | in every run, lost compare-and-swaps included, the pending bit stays with its holder until the holder's first release, which sees it |
| GlobalLock.FailedTryIsReported | kernel/acpi/uacpi/mutex.c:17-38 | however the run goes on after a failed attempt of OSPM, firmware still holds the lock and its release will raise the interrupt, or its first release has found the bit and is raising it |
| GlobalLock.FirmwareTryIsReported | kernel/acpi/uacpi/mutex.c:40-113 | the same of a failed attempt of firmware and OSPM's release, from every program point of OSPM |
| GlobalLock.ReportGoesOut | kernel/acpi/uacpi/mutex.c:102-113 | a release that has found the bit stays until the interrupt is raised or the release bit written |
| GlobalLock.TicketOffice.Acquire | kernel/acpi/uacpi/mutex.c:123-151 | the ticket is the sequence number before the increment |
| GlobalLock.TicketOffice.Release | kernel/acpi/uacpi/mutex.c:153-166 | releases exactly if the ticket equals the current number |
| GlobalLock.TicketOffice.AcquireThenRelease | kernel/acpi/uacpi/mutex.c:123-166 | of all numbers exactly the one after its ticket releases an acquired lock |
| TreeShape.WithoutWithKid | kernel/acpi/uacpi/namespace.c:180-285 | removing the node just installed gives the tree back |
| Namespace.Tree.Install | kernel/acpi/uacpi/namespace.c:180-207 | the node becomes the last child, all other links are kept, a dangling node is refused |
| Namespace.Tree.Uninstall | kernel/acpi/uacpi/namespace.c:214-285 | the node leaves with all below it and is marked; nothing happens to a dangling node, an uninstalled one or the root |
| Namespace.Tree.ForEachNodeDepthFirst | kernel/acpi/uacpi/namespace.c:463-505 | the callback sequence and final state are those of the recursive pre-order over the start node and its later siblings, with pruning and stopping; it always ends |
| NameString.FindSubNode | kernel/acpi/uacpi/namespace.c:287-305 | finds the first child of that name |
| NameString.ResolveNameString | kernel/acpi/uacpi/interpreter.c:475-624 | every byte string gets the meaning of its parse; the offset after it depends on the bytes alone |
| NameString.NameStringToPath | kernel/acpi/uacpi/interpreter.c:362-468 | the text is that of the parsed path |
| NameString.ParseOfText | kernel/acpi/uacpi/namespace.c:307-430 | printing a path of valid names and parsing the text gives the path back |
| NameString.DoFind | kernel/acpi/uacpi/namespace.c:335-430 | lookup by text is the meaning of the parsed text, with or without upward search |
| NameString.ResolversAgree | kernel/acpi/uacpi/namespace.c:441-448 | direct lookup and printing then resolving give the same node if and only if the string is not a counted lone name that the scope lacks and an ancestor of the scope has |
| NameString.SearchUpNone | kernel/acpi/uacpi/namespace.c:335-430 | the upward search fails exactly if neither the scope nor any of its ancestors has a child of that name |
| NameString.BytesAgree | kernel/acpi/uacpi/interpreter.c:362-468 | so it is for every byte string that parses, a NullName alone and invalid names apart |
| NameCreation.ResolveForCreation | kernel/acpi/uacpi/interpreter.c:475-624 | every byte string gets the place its parse names for a new node, or why there is none; nothing is searched for above the scope |
| NameCreation.CreatedIsFound | kernel/acpi/uacpi/interpreter.c:475-642 | a node installed where its string places it is what the same string names afterwards, carets, counts and single names included |
| NameCreation.CreatedExists | kernel/acpi/uacpi/interpreter.c:475-642 | and creating it again is refused |
| AbsolutePath.Depth | kernel/acpi/uacpi/namespace.c:507-517 | the number of nodes above |
| AbsolutePath.GenerateAbsolutePath | kernel/acpi/uacpi/namespace.c:519-557 | the buffer filled backwards is exactly the path and its terminator |
| AbsolutePath.AbsolutePathFindsNode | kernel/acpi/uacpi/namespace.c:335-557 | with unique sibling names, finding a node's printed path from anywhere returns the node |
| AbsolutePath.CountedOneDiffers | kernel/acpi/uacpi/interpreter.c:475-624 | a counted lone name, looked up from the sibling of the node it names, is missed by direct lookup and found through its text |
| RegionLinks.AttachOk | kernel/acpi/uacpi/opregion.c:181-223 | linking a region keeps lists, counts and back links consistent |
| RegionLinks.DetachOk | kernel/acpi/uacpi/opregion.c:225-272 | unlinking a region keeps them consistent and removes that region only |
| RegionLinks.VisitorWalk | kernel/acpi/uacpi/opregion.c:284-328 | the walk of installation and removal acts on exactly the regions of the space that hang from the device without a handler in between |
| RegionHandlers.HangsIsNearest | kernel/acpi/uacpi/opregion.c:284-328 | those regions are exactly the ones whose nearest handler is the device's |
| RegionHandlers.InstallKeepsInv | kernel/acpi/uacpi/opregion.c:425-486 | installation keeps every linked region at its nearest handler |
| RegionHandlers.UninstallKeepsInv | kernel/acpi/uacpi/opregion.c:488-533 | removal finds every region of the handler, leaves one reference, and giving it up frees the handler |
| RegionHandlers.ReleaseFrees | kernel/acpi/uacpi/shareable.c:37-59 | a handler without regions has one reference left |
| RegionHandlers.NarrowedSearch | kernel/acpi/uacpi/opregion.c:535-561 | the search for the narrowed space finds the nearest handler if and only if the space fits a byte or there is nothing to find |
| RegionHandlers.CreateKeepsInv | kernel/acpi/uacpi/opregion.c:535-561 | a new region keeps the invariant if and only if its space fits a byte or the narrowed search finds nothing |
| RegionHandlers.TableRegionStaysLoose | kernel/acpi/uacpi/interpreter.c:1181-1224 | a table data region below a node that serves its space finds no handler |
| RegionHandlers.DropKeepsInv | kernel/acpi/uacpi/opregion.c:225-272 | removing a region keeps the invariant |
| RegionHandlers.GrowKeepsInv | kernel/acpi/uacpi/namespace.c:180-207 | installing a node keeps the invariant |
| RegionHandlers.DeviceKeepsInv | kernel/acpi/uacpi/opregion.c:115-141 | a new device without handlers changes no nearest handler |
| RegionHandlers.ShrinkKeepsInv | kernel/acpi/uacpi/namespace.c:214-285 | a node that leaves after its region was unlinked keeps the invariant |
| RegionRuns.ReachableStates | kernel/acpi/uacpi/opregion.c:160-561 | after every run on a growing and shrinking namespace a linked region has the nearest handler for its space, is in its list once and in no other, and each handler has one reference more than regions |
| RegionRuns.RemovalFrees | kernel/acpi/uacpi/opregion.c:488-533 | in every such state removing a handler unlinks exactly its regions and frees it |
| OpRegion.Handlers.FindIn | kernel/acpi/uacpi/opregion.c:143-158 | finds the first handler of the list for the space |
| OpRegion.Handlers.FindAbove | kernel/acpi/uacpi/opregion.c:535-561 | climbing finds the nearest handler above |
| OpRegion.Handlers.Visit | kernel/acpi/uacpi/opregion.c:284-328 | the iterative walk with its callback has the effect that the runs are proved about |
| OpRegion.Handlers.Install | kernel/acpi/uacpi/opregion.c:425-486 | a step of the runs; status for a node that takes no handlers and for a space already served |
| OpRegion.Handlers.Uninstall | kernel/acpi/uacpi/opregion.c:488-533 | a step of the runs; exactly the handler's regions have no handler afterwards, and it is freed |
| OpRegion.Handlers.CreateRegion | kernel/acpi/uacpi/opregion.c:535-561 | links the region to the nearest handler for the narrowed space; the invariant holds afterwards if and only if the narrowing was harmless, and it is then a step of the runs |
| OpRegion.Handlers.Detach | kernel/acpi/uacpi/opregion.c:225-272 | a step of the runs that unlinks this region only |
| OpRegion.Handlers.AddNode | kernel/acpi/uacpi/namespace.c:180-207 | a new node is a step of the runs |
| OpRegion.Handlers.RemoveNode | kernel/acpi/uacpi/namespace.c:255-285 | a node that leaves is unlinked first: a step of the runs |
| RegionPointers.Attachments.FindPrevious | kernel/acpi/uacpi/opregion.c:160-179 | the search through the next pointers finds the link before a region, or the region itself at the head |
| RegionPointers.Attachments.Link | kernel/acpi/uacpi/opregion.c:212-223 | the pointer updates of linking are the linking step of the runs, and every other list is kept |
| RegionPointers.Attachments.NewHandler | kernel/acpi/uacpi/opregion.c:425-450 | a new handler has one reference and an empty list, and every other list is kept |
| RegionPointers.Attachments.Unlink | kernel/acpi/uacpi/opregion.c:225-272 | the pointer updates of unlinking are the unlinking step of the runs; it never drops the last reference |
| RegionPointers.Attachments.GiveUp | kernel/acpi/uacpi/opregion.c:488-533 | giving up a handler without regions drops its last reference |
| Mutexes.StepKeepsInv | kernel/acpi/uacpi/interpreter.c:3492-3584 | each step keeps the held list duplicate-free and equal to what the thread owns |
| Mutexes.RunKeepsInv | kernel/acpi/uacpi/interpreter.c:3492-3584 | so does every run of a context |
| Mutexes.ReleaseAllFrees | kernel/acpi/uacpi/interpreter.c:5594-5610 | releasing the context leaves none of its mutexes owned and touches no other |
| Mutexes.NothingOutlivesContext | kernel/acpi/uacpi/interpreter.c:5594-5610 | whatever a context did, none of its mutexes outlives it |
| Mutexes.StepKeepsLevel | kernel/acpi/uacpi/interpreter.c:3492-3584 | Acquire, Release and method entry keep the list sorted by sync level with the current level that of its last mutex |
| Mutexes.CallKeepsLevel | kernel/acpi/uacpi/interpreter.c:5514-5531 | a return keeps that order if and only if, apart from the method's own mutex, the last mutex held has the level of the last one held on entry |
| Mutexes.CallRestores | kernel/acpi/uacpi/interpreter.c:4218-4258 | a method that leaves the held list as it found it gives back list, level and ownership |
| Mutexes.ReleaseUndoesAcquire | kernel/acpi/uacpi/mutex.c:176-224 | Release takes back what Acquire did, recursion included |
| Mutexes.RunKeepsLevel | kernel/acpi/uacpi/interpreter.c:3492-3584 | over every run the order holds throughout if and only if every return meets that condition |
| Mutexes.LowLevelBreaksOrder | kernel/acpi/uacpi/interpreter.c:3492-3584 | once the current level is too low, an Acquire that is let through breaks the order |
| Mutexes.LeakLowersLevel | kernel/acpi/uacpi/interpreter.c:5514-5531 | a method that returns without releasing a mutex leaves the current level below it |
| Mutexes.StepKeepsSerialized | kernel/acpi/uacpi/interpreter.c:4218-4258 | every step but a return keeps the mutexes of all active serialized methods owned |
| Mutexes.ExitKeepsSerialized | kernel/acpi/uacpi/interpreter.c:5514-5531 | a return keeps them owned if and only if the method was not called recursively |
| Mutexes.RunKeepsSerialized | kernel/acpi/uacpi/interpreter.c:5514-5531 | over every run no active serialized method loses its mutex if and only if no return is from a recursive call |
| Mutexes.RecursionDropsMutex | kernel/acpi/uacpi/interpreter.c:5514-5531 | a method that calls itself loses its mutex at the inner return |
| HeldMutexes.HeldArray.Push | kernel/acpi/uacpi/interpreter.c:110-123 | appends, across the end of the inline slots and with growth of the buffer |
| HeldMutexes.HeldArray.RemoveIndex | kernel/acpi/uacpi/interpreter.c:125-175 | removal in inline slots and buffer is deletion from the sequence |
| HeldMutexes.Context.RemoveAndRelease | kernel/acpi/uacpi/interpreter.c:182-242 | takes the last occurrence off the list, releases it, and reports failure, as the proved step does |
| HeldMutexes.Context.Acquire | kernel/acpi/uacpi/interpreter.c:3492-3584 | the Acquire step |
| HeldMutexes.Context.Release | kernel/acpi/uacpi/interpreter.c:3492-3584 | the Release step |
| HeldMutexes.Context.Enter | kernel/acpi/uacpi/interpreter.c:4218-4258 | the entry step |
| HeldMutexes.Context.Exit | kernel/acpi/uacpi/interpreter.c:5514-5531 | the return step |
| HeldMutexes.Context.ReleaseContext | kernel/acpi/uacpi/interpreter.c:5594-5610 | afterwards the thread owns none of the context's mutexes |
| ResourceVm.RunToNative | kernel/acpi/uacpi/resources.c:1655-1918 | the instruction loop is the program function that the theorems are about |
| ResourceVm.RunToAml | kernel/acpi/uacpi/resources.c:2127-2379 | likewise for the other direction |
| ResourceVm.ToNativeLinear | kernel/acpi/uacpi/resources.c:1655-1918 | a program with skips does what the list of instructions it executes does |
| ResourceVm.StepsNativeHolds | kernel/acpi/uacpi/resources.c:1655-1918 | after a list of instructions every native field holds its AML bits and nothing else is touched |
| ResourceVm.StepsBack | kernel/acpi/uacpi/resources.c:2127-2379 | converting such fields back restores exactly the AML bits the list carries |
| ResourceVm.PackedBack | kernel/acpi/uacpi/resources.c:1690-1714 | packing the positions of a mask gives the mask again |
| ResourceTable.ProgramsRun | kernel/acpi/uacpi/resources.c:595-729 | what the conversion programs execute for each kind and each of its sizes |
| ResourceEntry.EntryWritten | kernel/acpi/uacpi/resources.c:1655-1918 | every descriptor of a modelled kind becomes a native entry with its fields and length |
| ResourceEntry.SizeBack | kernel/acpi/uacpi/resources.c:146-209 | the size computed from the native entry is the one the descriptor came with, the shorter forms included |
| ResourceEntry.EntryBack | kernel/acpi/uacpi/resources.c:2127-2379 | converting the entry back gives the descriptor without the bits that are not carried |
| ResourceEntry.StrayFlag | kernel/acpi/uacpi/resources.c:650-657 | the short StartDependent form writes a flag into the byte behind it and nowhere else |
| ResourceBuffer.ConvertFromAml | kernel/acpi/uacpi/resources.c:1920-2011 | the two passes over a list of descriptors |
| ResourceBuffer.ConvertToAml | kernel/acpi/uacpi/resources.c:2383-2479 | the two passes over a native buffer |
| ResourceBuffer.WritesEntries | kernel/acpi/uacpi/resources.c:1920-1956 | writing into a buffer of the size added up ends exactly there and lays out one entry per descriptor, in order |
| ResourceBuffer.TotalBack | kernel/acpi/uacpi/resources.c:2406-2427 | the AML size added up from those entries is the size of the template |
| ResourceBuffer.RoundTrip | kernel/acpi/uacpi/resources.c:1974-2479 | there and back is the template without the bits the conversion clears |
| ResourceCodec.EntryRead | kernel/acpi/uacpi/resources.c:2053-2091 | the iteration over the native buffer finds each entry's kind and length |
| ResourceCodec.ResourcesAreGood | kernel/acpi/uacpi/resources.c:1050-1330 | the programs of all modelled kinds meet what the round trip of whole templates needs |
| ResourceChain.ForEachResource | kernel/acpi/uacpi/resources.c:1414-1488 | the loop calls back on the descriptors of the walk, with its status |
| ResourceChain.WalkIsChain | kernel/acpi/uacpi/resources.c:1414-1488 | a successful walk is a gapless chain of descriptors to the first end tag |
| ResourceChain.ChainIsWalk | kernel/acpi/uacpi/resources.c:1414-1488 | and every such chain is what the walk finds |
| ResourceChain.ConcatResWalk | kernel/acpi/uacpi/interpreter.c:2947-2989 | concatenation succeeds exactly if each side is empty or valid; the result's descriptors are the first's, then the second's, then one end tag |
| ResourceWalk.DescMoves | kernel/acpi/uacpi/resources.c:1371-1401 | a descriptor is recognized the same way wherever its bytes lie |
| ResourceWalk.ReadIsGood | kernel/acpi/uacpi/resources.c:1371-1401 | the recognition of real descriptors meets what the walk and the concatenation need |
| ResourceWalk.ConcatTemplates | kernel/acpi/uacpi/interpreter.c:2947-2989 | the concatenation theorem for real resource templates |
| ResourceTheorems.WalkedTemplate | kernel/acpi/uacpi/resources.c:1414-1515 | the descriptors of an accepted template are exactly its bytes up to the end tag |
| ResourceTheorems.TemplateRoundTrip | kernel/acpi/uacpi/resources.c:1974-2479 | an accepted template comes back to the same bytes if and only if no descriptor has an uncarried bit set; the native buffer has the size added up |
| ResourceTheorems.CarriedExactly | kernel/acpi/uacpi/resources.c:595-729 | the programs carry every bit behind the header except the reserved ones |
| ResourceTheorems.UnchangedMeansReservedZero | kernel/acpi/uacpi/resources.c:595-729 | so a descriptor comes back unchanged if and only if its reserved bits, or its checksum, are zero |
| Gpe.StepKeepsUsers | kernel/acpi/uacpi/event.c:1023-1069 | each step keeps the runtime bit set exactly while the event has users |
| Gpe.RunKeepsUsers | kernel/acpi/uacpi/event.c:1023-1069 | so does every run |
| Gpe.StepKeepsMask | kernel/acpi/uacpi/event.c:302-336 | no step but enabling all for wake enables a masked event in hardware |
| Gpe.WakeKeepsMask | kernel/acpi/uacpi/event.c:1575-1613 | enabling all for wake does not either if and only if no masked event is a wake event |
| Gpe.RunKeepsMask | kernel/acpi/uacpi/event.c:302-336 | over every run masked events stay off in hardware throughout if and only if all is enabled for wake only while no masked event is a wake event |
| Gpe.StepKeepsWithin | kernel/acpi/uacpi/event.c:302-359 | without that and without resume, hardware enables stay within the events that have users |
| Gpe.ResumeKeepsWithin | kernel/acpi/uacpi/event.c:1338-1365 | resuming keeps to them if and only if the event is masked or has users |
| Gpe.RunKeepsMasks | kernel/acpi/uacpi/event.c:1338-1417 | over every run masked events stay off and what is on has users, throughout, if and only if every resume and every enabling for wake is harmless where it stands |
| Gpe.DisableForWakeExact | kernel/acpi/uacpi/event.c:1522-1547 | the wake mask after disabling an event is the mask without that event if and only if the mask was empty |
| Gpe.DisableForWakeSwaps | kernel/acpi/uacpi/event.c:1522-1547 | with events 0 and 1 enabled for wake, disabling 0 keeps 0 and clears 1 |
| Gpe.UninstallRestores | kernel/acpi/uacpi/event.c:1246-1283 | a native handler removed after any run that leaves it alone gives handler and triggering back, and the user it took unless the count is full |
| Gpe.InstallThenUninstall | kernel/acpi/uacpi/event.c:1085-1142 | removed at once, it restores handler, triggering and user count |
| GpeRegister.Register.SetGpeState | kernel/acpi/uacpi/event.c:288-336 | the update of the 8-bit enable register is that of the set of enabled events; no other event's bit changes and a masked one's never does |
| GpeRegister.Register.AddGpeUser | kernel/acpi/uacpi/event.c:1047-1069 | the update of masks, registers and count is the step on sets that keeps the runtime bit equal to having users; the status bit is cleared for a first user only |
| GpeRegister.Register.RemoveGpeUser | kernel/acpi/uacpi/event.c:1023-1040 | likewise for a user that goes |
| GpeRegister.Register.RestoreGpe | kernel/acpi/uacpi/event.c:345-359 | a step of the runs, on bits |
| GpeRegister.Register.DispatchGpe | kernel/acpi/uacpi/event.c:441-513 | a step of the runs, on bits |
| GpeRegister.Register.MaskUnmask | kernel/acpi/uacpi/event.c:1385-1417 | a step of the runs, on bits; it is refused exactly if it would change nothing |
| GpeRegister.Register.InstallHandler | kernel/acpi/uacpi/event.c:1085-1142 | a step of the runs, on bits; a second native handler is refused |
| GpeRegister.Register.UninstallHandler | kernel/acpi/uacpi/event.c:1246-1283 | a step of the runs, on bits, polling the status register; only the installed handler is removed |
| GpeRegister.Register.EnableGpe | kernel/acpi/uacpi/event.c:1285-1307 | a step of the runs, on bits; a first user clears the status bit before it is polled |
| GpeRegister.Register.SuspendResume | kernel/acpi/uacpi/event.c:1338-1351 | a step of the runs, on bits |
| GpeRegister.Register.SetupForWake | kernel/acpi/uacpi/event.c:1433-1520 | a step of the runs, on bits; refused only without effect |
| GpeRegister.Register.EnableDisableForWake | kernel/acpi/uacpi/event.c:1522-1547 | or-ing the bit and and-ing with it are the two steps of the runs |
| GpeRegister.ForAllRegisters | kernel/acpi/uacpi/event.c:1575-1613 | each register gets the action once, up to and including the first that cannot be written, whose enable register is kept |
| Calendar.CivilIsDateOf | kernel/sys/time.c:46-60 | the arithmetic on eras and March-based years computes the date of a day number |
| Calendar.DaysIsOrdinal | kernel/sys/time.c:37-44 | the inverse arithmetic computes the day number of a date |
| Calendar.DayRoundTrip | kernel/sys/time.c:37-60 | every day from 0000-03-01 on becomes a valid Gregorian date, from which its day number comes back |
| Calendar.DateRoundTrip | kernel/sys/time.c:37-60 | every valid date whose day number fits an int comes back |
| Calendar.CalendarSuccessor | kernel/sys/time.c:46-60 | the next day number is the next day of the calendar |
| Calendar.CivilCountsDays | kernel/sys/time.c:46-60 | day n is the date reached by counting n days from 1970-01-01 |
| Calendar.UnixRoundTrip | kernel/sys/time.c:62-95 | seconds survive the way to a broken-down time and back if and only if they are below 2^31 |
| Calendar.UnixWraps | kernel/sys/time.c:62-70 | from 2^31 seconds on, until 32 bits are full, the upper half comes back set |
| Calendar.UnixRoundTrip32 | kernel/sys/time.c:26-34 | the 32-bit conversion gives them back if and only if they are below 2^32 |
| ExecStack.TableDecodes | kernel/process/process.c:299-334 | a table of words over strings in place decodes to the argument count, arguments, environment and auxiliary vector |
| ExecStack.Stack.PushWord | include/garn/arch/x86_64.h:5-9 | stores an aligned word and changes nothing else |
| ExecStack.Stack.PushString | include/garn/arch/x86_64.h:11-17 | stores the string and its terminator and changes nothing else |
| ExecStack.Stack.PushStrings | kernel/process/process.c:299-334 | all strings lie where the returned addresses say; no push overwrites an earlier one |
| ExecStack.Stack.Align | kernel/process/process.c:299-334 | the table that follows will end on a multiple of 16 |
| ExecStack.Stack.PushTable | kernel/process/process.c:299-334 | the table is that of section 3.4.1 of the System V x86-64 psABI |
| ExecStack.Stack.Build | kernel/process/process.c:299-334 | for every argv and envp the stack is 16-byte aligned and decodes to the same strings; nothing above it is touched |
| ProcessTable.SlotsRemove | kernel/process/process.c:139-165 | the descriptors of a process that leaves are exactly those no longer counted |
| ProcessTable.Processes.constructor | kernel/process/process.c:19-22 | the first process has number 1 |
| ProcessTable.Processes.Fork | kernel/process/process.c:167-212 | the child is last, has a new and larger number, the caller as parent and its descriptors; every file's count grows by the slots that name it |
| ProcessTable.Processes.Exit | kernel/process/process.c:214-224 | the caller is a zombie with the status kept, and stays listed |
| ProcessTable.Processes.Free | kernel/process/process.c:139-165 | exactly that process leaves, the tail is right, its children go to the first process, file counts fall by its slots |
| ProcessTable.Processes.Scan | kernel/process/process.c:235-247 | finds the first terminated child of the caller that matches |
| ProcessTable.Processes.Wait | kernel/process/process.c:228-247 | one scan: only such a child is reaped, its number and status are returned, and no number is ever reaped twice |
| ProcessTable.Processes.WaitPid | kernel/process/process.c:228-247 | with any forks and exits of others between its scans, it reaps one matching terminated child or ends with none there, and no other process leaves the list |

## Left out

- Files: nothing is modelled of drivers, FAT, display, PCI, ELF loading, module loading, tables, `_OSI`, notify, logging and the platform hooks; they would add mostly easy members.
- AML: operators, object conversion, packages, method arguments and table loading; a term that is no control flow is an arbitrary function on the world with a fixed length.
- The control-flow model has a single call frame; a method call is one term.
- Package lengths of 2^28 bytes and methods of 2^32 bytes or more are outside the control-flow theorems.
- Locks, index fields and bank fields around field accesses; the region behind a field is a byte array, and the wrap-around of the 32-bit byte offset while a field is accessed is not modelled.
- Firmware is taken to follow the global-lock protocol, and the event and interrupt to behave as the kernel interface documents them; time-outs and more than one waiting OSPM thread are not modelled.
- The global-lock mutex among the AML mutexes, and other contexts on the same thread.
- NameString.ResolveNameString: states lookups only; NameCreation.ResolveForCreation states creation.
- Reference counts and objects of namespace nodes; uninstalling a node that lies below an uninstalled one.
- RegionRuns.ReachableStates: a region is created only where narrowing its space to a byte does no harm, because CreateKeepsInv shows that the invariant fails otherwise; a node leaves only without children and handlers.
- OpRegion.Handlers.Install: does not model `_REG` methods, because they are AML evaluations; a device's handlers are a sequence of numbers.
- OpRegion.Handlers.Uninstall: does not model detach callbacks and `_REG` methods, because they are calls into code that is not part of this model; a device's handlers are a sequence of numbers.
- OpRegion.Handlers.Detach: does not model state flags, the detach callback and `_REG` methods, for the same reason; its list is a sequence, which RegionPointers refines to pointers.
- Resource kinds with source strings, pin tables, vendor data and serial buses are walked and concatenated where their size is fixed by the table, but not converted.
- Native entries of length 0 and native buffers not made by the conversion.
- Bytes are sequences of bits in the resource model; update in place of its two buffers is modelled on values.
- Failing accesses to GPE registers other than in bulk actions, status bits that hardware raises during an operation, several blocks and the lookup of an event by number.
- Fixed events and the worker threads that run GPE methods.
- C signed overflow in the calendar is modelled as wrap-around; `time_conv_to_systime` is empty in the source.
- Process numbers and file reference counts are unbounded; opening and closing descriptors, threads, address spaces and names of processes are not modelled.
- ProcessTable.Processes.Wait: is one scan of the endless loop, because WaitPid states the loop for any finite number of scans.
- ExecStack.Stack.Build: requires room for the strings and the table, because the source does not check for it.
- Allocation failure everywhere.
