# Dafny models of the layout, format and VM algorithms

This project models the self-contained algorithms of the tool set whose correctness is least
obvious, and proves what they promise. Each model follows its source branch by branch: what the
source updates in place is a class with the same fields or a loop with invariants, and each such
method is proved against a specification that does not mention the method.

- **Script VM, reference counts and field pool** (`VmStore`, `VmStoreLemmas`, `VmCascade`,
  `VmRelease`, `VmCleanup`, `VmPool`, `Vm`). Objects are counted by the places that hold them. Releasing a
  variable runs the recursive cascade of `DecRef` and `ReleaseVariable`; `VmRelease.Doomed`
  says independently what has to go: the least set closed under "held only from the released
  variable and from the set itself".
- **Script VM, linker** (`Reach`, `Linker`). Scripts and their includes go into a table of 0x400
  entries; the specification is reachability in the include graph.
- **Replay layout propagation** (`Layouts`, `LayoutLaws`, `LayoutMembers`, `LayoutNative`,
  `LayoutOneSided`, `ReplayLayouts`, `LayoutCancelling`). Size changes of records are pushed through containing
  structs and arrays until nothing changes. `LayoutNative.Native` says independently where that
  should end: the layout in which every embedded member has the native size of its type, by
  recursion on the rank of containment.
- **DDL bit layout** (`DdlSchema`, `Ddl`) and **reading a member's bits** (`Bits`, `DdlBits`).
- **Traversal audit** (`AuditSchema`, `AuditFacts`, `AuditReport`, `Audit`). Depth-first searches
  with shared visited sets; `AuditFacts` says what they find as relations on the schema, without a
  search.
- **LZ4 decoder and IWffc container** (`Bytes`, `Lz4`, `Container`, `Fastfile`). Both readers are
  characterised exactly: they accept a byte string if and only if it is an encoding, and then
  return what it encodes.
- **Array strides** (`Strides`). A size expression is sampled at counts 0, 1 and 2.
- **ADL structs, enums and type table** (`AdlLayout`, `AdlTypes`, `AdlDefine`, `AdlFacts`,
  `AdlSource`, `Adl`, `AdlConvert`). `AdlSource.Defines` relates each accepted definition to the
  tables before and after it, without computing.
- **Pack file** (`PackFormat`, `PackLaws`, `PackFile`, `PackLoad`). The writer back-patches a
  growing buffer; the loader reads it back through offsets.

Integers are unbounded unless the source's width matters: DDL and ADL sizes are 64-bit words with
wrap-around, byte strings are sequences of numbers below 256, and integers in bytes are little
endian. Hashes of names are the names themselves, so hashing is taken to be injective.
`Options.Option` stands for a result that an exception, a failed assertion or an error return
replaces. Lemmas with a body carry `{:induction false}`: each induction is written out. `hide`
statements only keep definitions away from the solver.

Results worth knowing:

- Reference cycles leak, and exactly the doomed objects are freed otherwise (`VmRelease.CyclesLeak`,
  `Vm.ActsVm.Release`).
- Propagation at rest is the native layout if and only if no visited struct has member changes that
  sum to zero without all being zero (`LayoutNative.RestIsNative`). With parts visited before what
  contains them, this can be read off the native layout before the call
  (`LayoutNative.BottomUpIsNative`). Where changes cancel, the result depends on the order of the
  source names (`LayoutCancelling.CancellingDependsOnOrder`); where nothing cancels it does not
  (`ReplayLayouts.OrderDoesNotMatter`).
- For an arbitrary order it is not enough that the native changes in each struct have one sign:
  in `LayoutCancelling.OneSignIsNotEnough` both members of a struct grow by two bytes, and still the
  order of the names shows. What is enough is that in each struct the declared size, the first size
  and the native size of every member go the same way (`LayoutOneSided.OneSidedIsNative`), some
  structs up and others down; growth everywhere is a special case (`LayoutOneSided.GrowthIsOneSided`).
- The DDL compiler never puts the root on its stack, and takes a root that contains itself behind a
  member that is not empty (`Ddl.AcceptsRootInRoot`). `Ddl.DDLCompiled.CompleteStruct` says when.
- `AddString` counts a new string twice, so the string outlives the last variable that holds it
  (`VmRelease.AddStringOvercounts`).
- The LZ4 decoder also takes a block that ends after a match, and one whose last distance is cut to
  a single byte; `Lz4.Block` has these two endings beside the regular one.
- An ADL element of size zero resets the offset of an aligned struct to zero
  (`AdlLayout.EmptyElementResets`); `AdlLayout.OrderedIffSteady` says exactly which structs have
  disjoint members.
- The pack file loader counts new VMs with the number of old ones, so it registers all packed VMs
  if and only if each has an old id (`PackLoad.PackThenLoad`).

## Model

| member | source | states |
|---|---|---|
| `VmRelease.DoomedIsClosed` | src/core/vm/acts_vm.cpp:103-145 | the doomed objects are themselves closed under "all holders are the released variable or slots of the set", so they are the least such set |
| `VmRelease.FreedIsClosed` | src/core/vm/acts_vm.cpp:103-145 | if counts are exact before and after a release, the freed set contains every object that lost all its holders |
| `VmRelease.HeldOutsideSurvives` | src/core/vm/acts_vm.cpp:103-145 | an object held by another root or field is never freed |
| `VmRelease.CyclesLeak` | src/core/vm/acts_vm.cpp:103-122 | objects that hold each other in a cycle are never freed by releasing another variable |
| `VmRelease.SharedFreesNothing` | src/core/vm/acts_vm.cpp:103-139 | releasing one of several holders frees nothing |
| `VmRelease.ReleasedByKind` | src/core/vm/acts_vm.cpp:103-146 | a string or vector goes with its last count and alone, an array goes with its last count; with counts left, one count is lost and nothing else changes; variables of other kinds change nothing |
| `VmRelease.ReleasedIsUnique` | src/core/vm/acts_vm.cpp:142-146 | the specification of a release leaves only one possible final state |
| `VmRelease.MoveSound` | src/core/vm/acts_vm.cpp:155-158 | moving a variable and clearing its source keeps all counts exact |
| `VmRelease.AddStringSound` | src/core/vm/acts_vm.cpp:482-487 | a new string reference with its count raised keeps all counts exact |
| `VmRelease.AddStringOvercounts` | src/core/vm/acts_vm.cpp:480-487 | a string added by its text has one holder and the count two, and lives on when that holder is released |
| `VmCascade.CleanStep` | src/core/vm/acts_vm.cpp:111-119 | one round of the node loop frees exactly its share and leaves the rest of the dying array's nodes in place |
| `VmCascade.EndArray` | src/core/vm/acts_vm.cpp:105-123 | a cleaned array, freed, amounts to a release that freed the array and what its nodes held last |
| `Vm.ActsVm.DecRef` | src/core/vm/acts_vm.cpp:103-140 | keeps counts, lists and pending locations exact through the cascade, never reads a freed object, frees only what must go, and terminates |
| `Vm.ActsVm.CleanNodes` | src/core/vm/acts_vm.cpp:111-119 | releases index and value of every node and frees it, keeping the invariant with half the list gone |
| `Vm.ActsVm.ReleaseVariable` | src/core/vm/acts_vm.cpp:142-146 | the cascade of one variable, then the variable is undefined |
| `Vm.ActsVm.Release` | src/core/vm/acts_vm.cpp:142-146 | frees exactly the doomed objects and their nodes; all else is unchanged but for counts, which are again the numbers of holders; by kind as above |
| `Vm.ActsVm.AddStringRef` | src/core/vm/acts_vm.cpp:482-487 | the slot holds the string and its count is one higher |
| `Vm.ActsVm.CreateField` | src/core/vm/acts_vm.cpp:147-166 | takes the head of the free list and moves the value in; fails exactly when the list is empty, and then changes nothing |
| `Vm.ActsVm.CreateVar` | src/core/vm/acts_vm.cpp:176-189 | the frame gains the slot the free list lost; locations and missing values give an undefined variable |
| `Vm.ActsVm.ReleaseField` | src/core/vm/acts_vm.cpp:190-199 | releases the field's value, freeing exactly what is doomed with it, and puts the slot at the head of the free list |
| `VmCleanup.DoomedAllIsClosed` | src/core/vm/acts_vm.cpp:168-199 | what several releases doom together is closed under "all holders are among the released variables or slots of the set", so it is the least such set |
| `VmCleanup.ReleaseStays` | src/core/vm/acts_vm.cpp:168-199 | one of several releases frees only what they doom together |
| `VmCleanup.FreedAllIsClosed` | src/core/vm/acts_vm.cpp:168-199 | with exact counts, after the last release everything doomed has gone |
| `VmCleanup.HeldElsewhereSurvives` | src/core/vm/acts_vm.cpp:168-199 | an object held by a root or another field survives |
| `Vm.ActsVm.CleanupFrame` | src/core/vm/acts_vm.cpp:168-175 | all slots of the frame return to the free list, in reverse order, and no other field changes; the heap loses exactly the objects that only the frame's variables kept, and the rest is unchanged but for counts |
| `Vm.ActsVm.SetRefValue` | src/core/vm/acts_vm.cpp:298-313 | releases the old value, then moves the new one in |
| `Vm.ActsVm.Run` | src/core/vm/acts_vm.cpp:142-199 | whatever the steps of a run, counts stay exact and free list and frames stay a partition of the slots |
| `VmPool.FreeListAcyclic` | src/core/vm/acts_vm.cpp:147-199 | no slot is twice in the free list |
| `VmPool.HeldIsNotFree` | src/core/vm/acts_vm.cpp:147-199 | a slot of a frame is not in the free list |
| `VmPool.NeverLiveTwice` | src/core/vm/acts_vm.cpp:147-199 | no slot is live in two places |
| `VmPool.SlotsConserved` | src/core/vm/acts_vm.hpp:114-191 | free slots and live variables add up to all slots |
| `VmPool.TakeHead` | src/core/vm/acts_vm.cpp:152-154 | following the link of the head leaves a well-formed, shorter free list |
| `VmPool.PutBack` | src/core/vm/acts_vm.cpp:194-198 | linking a loose slot in front leaves a well-formed, longer free list |
| `Linker.ActsVm.FindLinked` | src/core/vm/acts_vm.cpp:553-560 | finds the entry of a script, or that it has none |
| `Linker.ActsVm.LinkScript` | src/core/vm/acts_vm.cpp:512-523 | a missing script aborts, any other is linked |
| `Linker.ActsVm.LinkActsScript` | src/core/vm/acts_vm.cpp:547-580 | terminates on any include graph; never registers a script twice or beyond 0x400; registers the script first and then only scripts that an earlier new one includes, all in the current group; success leaves the table closed under includes but for scripts still open |
| `Linker.ActsVm.LinkIncludes` | src/core/vm/acts_vm.cpp:574-580 | success means all includes are in the table, failure that something reachable cannot be linked or does not fit |
| `Linker.ActsVm.LinkInclude` | src/core/vm/acts_vm.cpp:574-580 | one include: registered behind the scripts before it, in the current link group, or a reason why not |
| `Linker.ActsVm.LoadScript` | src/core/vm/acts_vm.cpp:489-494 | succeeds if and only if everything reachable can be linked and fits; the table then is the old one plus exactly the reachable scripts, each behind one that includes it, in a new group |
| `Linker.HoldsReachable` | src/core/vm/acts_vm.cpp:547-580 | a table closed under includes holds all that its scripts reach |
| `Linker.ReachableIs` | src/core/vm/acts_vm.cpp:547-580 | reachable is what a chain of includes leads to |
| `Linker.BlockedDoesNotFit` | src/core/vm/acts_vm.cpp:563-566 | a full table met by a new script means that not everything fits |
| `LayoutLaws.RelaidKeepsGaps` | scripts/mw19/replay_layouts.py:204-214 | moving members by the changes before them keeps the first offset and every gap |
| `LayoutLaws.VisitKeepsGaps` | scripts/mw19/replay_layouts.py:202-218 | a visit keeps all gaps, and the tail gap up to the bits beyond whole bytes |
| `LayoutLaws.PassKeepsGaps` | scripts/mw19/replay_layouts.py:193-218 | every pass keeps the first offset and all gaps between members, whatever the sizes |
| `LayoutLaws.PassKeepsShapes` | scripts/mw19/replay_layouts.py:193-218 | with sizes in whole bytes, every pass keeps the gap behind the last member too |
| `LayoutLaws.StaysDisjoint` | scripts/mw19/replay_layouts.py:188-190 | ordered, non-overlapping members stay so |
| `LayoutMembers.RelaidSizes` | scripts/mw19/replay_layouts.py:204-214 | a visit gives every overridden struct, array or opaque member 8 times its type's size, and leaves the size of any other |
| `LayoutMembers.QuietRests` | scripts/mw19/replay_layouts.py:194-218 | in a type at rest each overridden struct, array or opaque member has 8 times its type's size, unless one is too short and another too long |
| `LayoutMembers.VisitKeepsRest` | scripts/mw19/replay_layouts.py:194-218 | types that are not visited and sizes of members that are not overridden stay |
| `LayoutLaws.BottomUpPass` | scripts/mw19/replay_layouts.py:191-219 | visiting types after what they contain, one pass settles everything |
| `LayoutNative.FitsUnlessCancels` | scripts/mw19/replay_layouts.py:204-215 | in a type at rest every embedded member has its type's size, unless changes cancel |
| `LayoutNative.RestIsNative` | scripts/mw19/replay_layouts.py:191-220 | a settled layout, reached in any way, is the native one if and only if nothing cancels in it |
| `LayoutNative.BottomUpIsNative` | scripts/mw19/replay_layouts.py:191-219 | one pass bottom-up gives the native layout if and only if no changes from declared to native sizes cancel |
| `LayoutOneSided.OneSidedIsNative` | scripts/mw19/replay_layouts.py:191-220 | where all sizes in a struct go one way, up or down, every order ends in the native layout and overrides exactly the changed types |
| `LayoutOneSided.GrowthIsOneSided` | scripts/mw19/replay_layouts.py:191-220 | if no part is smaller than what contains it takes it to be, all sizes go up |
| `Layouts.VisitCalm` | scripts/mw19/replay_layouts.py:193-218 | once all types of rank p are final, a visit to a type of rank p + 1 makes it final for good |
| `Layouts.VisitQuiets` | scripts/mw19/replay_layouts.py:194-218 | after its visit a type agrees with what it contains |
| `ReplayLayouts.Replay.Clone` | scripts/mw19/replay_layouts.py:13-19 | the copy under the Replay:: name, and the override to it |
| `ReplayLayouts.Replay.Relay` | scripts/mw19/replay_layouts.py:203-214 | the new members, with new sizes for overridden records and all gaps kept, and the sum of their changes |
| `ReplayLayouts.Replay.Update` | scripts/mw19/replay_layouts.py:194-218 | one name's turn does what the abstract visit does, and reports whether there was anything to do |
| `ReplayLayouts.Replay.OnePass` | scripts/mw19/replay_layouts.py:192-218 | reports no change exactly when everything was settled, and settles one more rank |
| `ReplayLayouts.Replay.Propagate` | scripts/mw19/replay_layouts.py:191-220 | with containment of rank at most k, ends after at most k + 1 passes, so the error after 32 passes needs k of 32 or more; in the result arrays have the size of their elements and overridden members 8 times the size of their types, unless some are short and others long; gaps, unvisited types and other sizes are kept; the result is native if and only if nothing cancels in it, and if all changes go one way |
| `ReplayLayouts.OrderDoesNotMatter` | scripts/mw19/replay_layouts.py:191-220 | two runs in which nothing cancels end in the same layout, whatever the order of the source names |
| `LayoutCancelling.CancellingDependsOnOrder` | scripts/mw19/replay_layouts.py:204-218 | two names, one shrinking and one growing member: two orders, two settled layouts |
| `LayoutCancelling.OneSignIsNotEnough` | scripts/mw19/replay_layouts.py:204-218 | two growing members, one of whose types shrinks first: two orders, two settled layouts |
| `DdlSchema.EnumSizeIsLeast` | src/core/acts/ddl/ddl.cpp:219-231 | an enum takes the least of 8, 16, 32 and 64 bits with more codes than values |
| `DdlSchema.SizedIsNotBroken` | src/core/acts/ddl/ddl.cpp:245-297 | a struct that has a finite size reaches no unknown type and no by-value cycle |
| `DdlSchema.RootOnCycle` | src/core/acts/ddl/ddl.cpp:261-284 | the root is on a by-value cycle exactly if one of its own members leads back to it |
| `DdlSchema.CutBroken` | src/core/acts/ddl/ddl.cpp:261-284 | an unknown type or cycle that avoids members of the root's type is one of the whole schema |
| `Ddl.DDLCompiled.CompleteStructOf` | src/core/acts/ddl/ddl.cpp:245-297 | completes a struct despite the size memo and repeated zero-size structs, or has found an unknown type, a cycle, or the root while its size is zero |
| `Ddl.DDLCompiled.PlaceMembers` | src/core/acts/ddl/ddl.cpp:248-296 | all members of a struct, one behind the other, or the first fault |
| `Ddl.DDLCompiled.PlaceMember` | src/core/acts/ddl/ddl.cpp:250-295 | one member goes to the current end of the struct, and the end moves behind it by its size times its array size, modulo 2^64 |
| `Ddl.LaidIsContiguous` | src/core/acts/ddl/ddl.cpp:245-297 | in a finished struct each member starts where the one before ends, array sizes included, the struct ends with the last, and class members have the size of their enum or struct |
| `Ddl.RootMet` | src/core/acts/ddl/ddl.cpp:261-284 | a chain that comes back to the root finds it sized exactly if the bits before the root's first such member are not zero, unless a size has overflowed |
| `Ddl.DDLCompiled.CompleteStruct` | src/core/acts/ddl/ddl.cpp:302-315 | true if and only if the root exists, nothing is broken when members of the root's type are cut, and the root is on no cycle or the sizes before its first member that leads back are not zero modulo 2^64; off every cycle, if and only if no chain meets an unknown name or a cycle, and all reachable structs are contiguous, member by member; declarations never change |
| `Ddl.AcceptsRootInRoot` | src/core/acts/ddl/ddl.cpp:302-315 | a root with one builtin member and a member of its own type is accepted |
| `DdlBits.CopyBytes` | src/core/acts/ddl/ddl.cpp:107-109 | the byte path: the data shifted by the offset, modulo 2^size |
| `DdlBits.CopyBits` | src/core/acts/ddl/ddl.cpp:110-117 | the bit path: the same value, for every offset and size |
| `DdlBits.ReadDdlMember` | src/core/acts/ddl/ddl.cpp:98-117 | for every offset and size from 1 to 64 the buffer is the little-endian data shifted right by the offset, modulo 2^size |
| `Bits.ShiftAndMask` | src/core/acts/ddl/ddl.cpp:98-117 | shifting and keeping low bits are quotient and remainder by a power of two |
| `Bytes.LastByte` | src/core/acts/ddl/ddl.cpp:107-117 | numbers are little endian: a byte counts 256 to the power of the bytes before it |
| `Audit.Auditor.Probe` | scripts/mw19/audit_schema.py:26-36 | a search with a shared set either has found a pointer or has seen everything reachable from what it was asked |
| `Audit.Auditor.ContainsPointers` | scripts/mw19/audit_schema.py:26-36 | true if and only if a pointer type is reachable through elements and members, on any cyclic type graph |
| `Audit.Auditor.MemberOf` | scripts/mw19/audit_schema.py:42-67 | searches exactly what the member leads to and records exactly its own gaps and those of newly seen types |
| `Audit.Auditor.ElementsOf` | scripts/mw19/audit_schema.py:62-65 | the same for all elements of an array, each with its own rule |
| `Audit.Auditor.Walk` | scripts/mw19/audit_schema.py:69-97 | a type is entered once, and its local gaps are recorded once |
| `Audit.Auditor.WalkCases` | scripts/mw19/audit_schema.py:77-88 | the cases of a ruled union, each with the rule it stands for |
| `Audit.Auditor.AuditPool` | scripts/mw19/audit_schema.py:39-98 | the seen types are exactly those walked from the root, and the gaps exactly their own, whatever the order of visits; pointer members, array elements and union members are reported exactly as their rules say |
| `Audit.SearchedAll` | scripts/mw19/audit_schema.py:69-97 | a search that started from nothing has seen exactly what is reachable |
| `AuditFacts.HasPointerIs` | scripts/mw19/audit_schema.py:26-36 | a type holds a pointer if and only if a chain of elements and members leads to one |
| `AuditFacts.PlaceIs` | scripts/mw19/audit_schema.py:42-67 | from a place, the walk goes on to and reports exactly what the places under it say, one step at a time |
| `AuditFacts.WalkIs` | scripts/mw19/audit_schema.py:69-97 | a type's own steps and gaps are those of the places its walk looks at |
| `AuditReport.MemberGap` | scripts/mw19/audit_schema.py:50-60 | a pointer member is a gap if and only if it has no rule, its target is no root and needs an extent |
| `AuditReport.MemberFollowed` | scripts/mw19/audit_schema.py:45-67 | a ruled pointer to a record is followed, unless it is runtime data or a single reference to a root |
| `AuditReport.RuntimeStops` | scripts/mw19/audit_schema.py:46-47 | behind a runtime pointer nothing is looked at, and it is no gap |
| `AuditReport.ElementGap` | scripts/mw19/audit_schema.py:62-65 | a pointer in an array is a gap at its printed index if and only if it has no rule of its own and needs one |
| `AuditReport.CaseGap` | scripts/mw19/audit_schema.py:77-88 | a pointer in a ruled union is a gap if and only if some case takes it for a string and it needs an extent |
| `AuditReport.CaseFollowed` | scripts/mw19/audit_schema.py:77-88 | a counted case follows its pointer, unless it is a single reference to a root |
| `AuditReport.CaseElementGap` | scripts/mw19/audit_schema.py:77-88 | a pointer in an array of a ruled union is a gap if and only if some case gives the array no element count and it needs an extent |
| `AuditReport.DecimalReads` | scripts/mw19/audit_schema.py:65 | a printed index consists of digits and reads back |
| `Lz4.CopyIsPeriodic` | scripts/mw19/verify_linker.py:27 | a match extends the output with period `distance`, also where it overlaps itself |
| `Lz4.DecodeOf` | scripts/mw19/verify_linker.py:9-30 | decoding the encoding of any valid block, with long run lengths too, gives its step-by-step expansion, if that has the expected length |
| `Lz4.DecodedBlock` | scripts/mw19/verify_linker.py:9-30 | whatever the decoder accepts is the encoding of a block, and the result its expansion |
| `Lz4.DecodeIsExact` | scripts/mw19/verify_linker.py:9-30 | both directions for whole inputs |
| `Lz4.ShortBlock` | scripts/mw19/verify_linker.py:18-27 | token, literals and two distance bytes, byte by byte: the match repeats what lies that far back, four bytes or more |
| `Lz4.LongLiterals` | scripts/mw19/verify_linker.py:12-17 | 15 literals are counted by the token, 255 by each full byte behind it, the rest by the last |
| `Lz4.SameEncodingSameBytes` | scripts/mw19/verify_linker.py:9-30 | blocks with the same encoding expand to the same bytes |
| `Lz4.Turn` | scripts/mw19/verify_linker.py:18-27 | each round advances the position, and the output never exceeds what is expected |
| `Lz4.Length` | scripts/mw19/verify_linker.py:12-17 | a length with its 255 runs, failing at the end of the data |
| `Lz4.CopyMatch` | scripts/mw19/verify_linker.py:27 | the byte-by-byte copy |
| `Lz4.Lz4` | scripts/mw19/verify_linker.py:9-30 | the decoder succeeds exactly on encodings of blocks that expand to the expected length |
| `Container.SamePad` | scripts/mw19/verify_linker.py:48 | padding relative to the chunk and padding of the file position agree |
| `Container.ChunksRead` | scripts/mw19/verify_linker.py:44-50 | the chunks of a file are read to their contents and their number |
| `Container.ChunksThatWereRead` | scripts/mw19/verify_linker.py:44-50 | whatever the chunk loop accepts is a list of chunks, each needed for the size |
| `Container.ReadIsExact` | scripts/mw19/verify_linker.py:33-51 | the reader accepts exactly the containers and returns body, blocks and chunk count |
| `Container.EncodedChunk` | scripts/mw19/verify_linker.py:49 | an LZ4 chunk stands for its block's expansion |
| `Container.ContentIs` | scripts/mw19/verify_linker.py:49 | codec 1 stores the contents and codec 5 is LZ4 |
| `Container.ChunkIs` | scripts/mw19/verify_linker.py:45-48 | a chunk byte by byte: stored length, length of the contents, zero, the stored bytes, and less than four bytes of padding |
| `Fastfile.PiecesSize` | scripts/mw19/fastfile_fixture.py:11-15 | the number of chunks is the length over 65536, rounded up, and so is the file's size determined |
| `Fastfile.PackChunks` | scripts/mw19/fastfile_fixture.py:11-15 | the chunk loop writes the pieces of the body, padded |
| `Fastfile.PackHeader` | scripts/mw19/fastfile_fixture.py:16-21 | the fields written into the header buffer |
| `Fastfile.Pack` | scripts/mw19/fastfile_fixture.py:10-22 | fails exactly when a length or block size does not fit or there are not eleven blocks; else writes a container that carries body and blocks |
| `Fastfile.UnpackChunk` | scripts/mw19/verify_linker.py:45-49 | one chunk, stored or LZ4, and the aligned position behind it |
| `Fastfile.HeaderIs` | scripts/mw19/verify_linker.py:33-43 | the header of whatever is accepted, byte by byte: magic, versions 11 and 0xff7, lengths, block sizes, chunk limit and codec |
| `Fastfile.Unpack` | scripts/mw19/verify_linker.py:33-51 | accepts exactly the containers, and returns what they carry |
| `Fastfile.RoundTrip` | scripts/mw19/fastfile_fixture.py:10-22 | unpacking a packed body gives the same body, the same blocks and the chunk count |
| `Strides.FlatStays` | scripts/mw19/generate_pointer_rules.py:79-85 | a size equal at one and two elements is constant from there on |
| `Strides.DoublesOrMore` | scripts/mw19/generate_pointer_rules.py:79-85 | a size that starts at zero at least doubles, and if it just doubles it is linear |
| `Strides.ShiftDoubles` | scripts/mw19/generate_pointer_rules.py:79-85 | a shift by one more doubles the size |
| `Strides.ThreePointsSuffice` | scripts/mw19/generate_pointer_rules.py:86-88 | the three samples agree if and only if the size is linear for every count |
| `Strides.StrideOf` | scripts/mw19/generate_pointer_rules.py:86-90 | the stride is found exactly when the size is linear with a factor from 1 to 1 MiB |
| `Strides.StrideOfLoader` | scripts/mw19/generate_pointer_rules.py:76-91 | only the first stream call decides |
| `Strides.ArrayStrides` | scripts/mw19/generate_pointer_rules.py:72-92 | the result has exactly the array loaders with a linear size, each with its factor |
| `AdlLayout.ClearAndKeep` | src/core/acts/adl/adl.cpp:537 | x & m and x & ~m split x, and x & m is at most m, for every m |
| `AdlFacts.ClearBit` | src/core/acts/adl/adl.cpp:537 | bit by bit: x & ~m has exactly the bits of x that m has not |
| `AdlLayout.AlignedIsForward` | src/core/acts/adl/adl.cpp:528-538 | aligning moves forward exactly when it neither overflows nor meets an empty element behind others |
| `AdlLayout.AlignedIsLeast` | src/core/acts/adl/adl.cpp:528-538 | with a power of two the offset is the least multiple at or after the previous end |
| `AdlLayout.OrderedIffSteady` | src/core/acts/adl/adl.cpp:433-607 | members are in order, disjoint and within the final size if and only if every member passes the guard on empty elements and overflow |
| `AdlLayout.EmptyElementResets` | src/core/acts/adl/adl.cpp:529-537 | after an empty element the next member of an aligned struct is at offset zero |
| `AdlTypes.SizesStay` | src/core/acts/adl/adl.hpp:360-400 | later definitions never change the size of an earlier type |
| `AdlTypes.StructStays` | src/core/acts/adl/adl.hpp:360-400 | nor the layout of a finished struct, which stays what its members' current sizes give |
| `AdlTypes.MembersFine` | src/core/acts/adl/adl.cpp:437-592 | accepted members have known types without typedefs, by value only of earlier structs, with distinct names, laid out one after the other |
| `AdlTypes.MembersKept` | src/core/acts/adl/adl.cpp:437-592 | no member is lost, added, renamed or moved |
| `AdlFacts.FinePacked` | src/core/acts/adl/adl.cpp:437-607 | in every finished struct each member lies at the end of those before, rounded up as its alignment says, takes its size times its number, and the struct ends with the last or at its forced size |
| `AdlFacts.BoundsAre` | src/core/acts/adl/adl.cpp:738-757 | the bounds of each integer type, in numbers |
| `AdlDefine.ValuesOf` | src/core/acts/adl/adl.cpp:769-793 | enum values fit the base type, names differ, and a value not given is one more than the one before |
| `AdlSource.ValuesAreCounted` | src/core/acts/adl/adl.cpp:769-793 | counted values are as given or one more than the one before, within the bounds in numbers, no name twice |
| `AdlSource.CountedIfValues` | src/core/acts/adl/adl.cpp:769-793 | and any such values are accepted |
| `AdlSource.AddedIsBuilt` | src/core/acts/adl/adl.cpp:437-592 | accepted members satisfy, one by one, what the language demands, and lie as their fields say |
| `AdlSource.BuiltIsAdded` | src/core/acts/adl/adl.cpp:437-592 | and any such members are accepted |
| `AdlSource.DefineIs` | src/core/acts/adl/adl.cpp:311-840 | a definition is accepted, and changes the table, exactly as the relation between the tables before and after says |
| `AdlSource.DefineAllIs` | src/core/acts/adl/adl.cpp:311-840 | so is a whole source file |
| `AdlDefine.DefineKeepsFine` | src/core/acts/adl/adl.hpp:402-481 | every definition keeps ids unique per name, typedefs at one hop, structs finished, and all earlier definitions |
| `AdlDefine.DefinitionsKeepFine` | src/core/acts/adl/adl.cpp:311-840 | so does every sequence of definitions that succeeds |
| `Adl.AdlData.constructor` | src/core/acts/adl/adl.hpp:195-242 | exactly the default names, each with its type, well formed |
| `Adl.AdlData.GetBaseType` | src/core/acts/adl/adl.hpp:334-347 | the typedef loop ends at a type that is no typedef |
| `Adl.AdlData.IdOfName` | src/core/acts/adl/adl.hpp:349-357 | the base type of a name, or unknown |
| `Adl.AdlData.SizeOfType` | src/core/acts/adl/adl.hpp:361-400 | the recursion ends with the size of the type |
| `Adl.AdlData.RegisterTypeDef` | src/core/acts/adl/adl.hpp:402-412 | a free name becomes the next typedef; a taken one changes nothing |
| `Adl.AdlData.CreateStruct` | src/core/acts/adl/adl.hpp:414-429 | a free name becomes an empty struct of the next number |
| `Adl.AdlData.CreateCustomType` | src/core/acts/adl/adl.hpp:431-446 | a free name becomes the next custom type |
| `Adl.AdlData.CreateEnum` | src/core/acts/adl/adl.hpp:448-461 | a free name becomes the next enumeration |
| `Adl.AdlData.AddField` | src/core/acts/adl/adl.cpp:437-592 | one member of a struct: all its errors, its offset and its size |
| `Adl.AdlData.StructDefinition` | src/core/acts/adl/adl.cpp:380-610 | a whole struct with alignment, forced size and members |
| `Adl.AdlData.CountValues` | src/core/acts/adl/adl.cpp:767-793 | the values of an enumeration, one after the other |
| `Adl.AdlData.Compile` | src/core/acts/adl/adl.cpp:311-860 | succeeds exactly when every definition is accepted, one after the other; the table then is well formed, extends the old one, is what the definitions say, and all its structs are packed |
| `AdlConvert.ValueSurvives` | src/core/acts/adl/adl.hpp:534-572 | a value within the enum bounds reads back unchanged under the base type's signedness |
| `AdlConvert.ReadIntIs` | src/core/acts/adl/adl.hpp:534-572 | the integer of some bytes is the one in the type's range that is congruent to their unsigned number |
| `AdlConvert.OnlyFittingValuesSurvive` | src/core/acts/adl/adl.cpp:738-757 | below 64 bits the enum bounds admit every value that reads back |
| `AdlConvert.StructIsOrdered` | src/core/acts/adl/adl.cpp:433-610 | members of a struct of the table are disjoint and inside its size exactly if each passed the guard |
| `AdlConvert.FineIsReady` | src/core/acts/adl/adl.cpp:433-610 | a struct of the table whose members passed the guard and whose enum members have elements can be converted |
| `AdlConvert.WritesApart` | src/core/acts/adl/adl.hpp:585-634 | different keys write different bytes |
| `AdlConvert.EffectIs` | src/core/acts/adl/adl.hpp:609-630 | a key has an effect exactly if it names an enumeration member and its text one of the values, and then writes that value; it is refused exactly if the member's enumeration is unknown or the value is no string |
| `AdlConvert.ReadsBack` | src/core/acts/adl/adl.hpp:574-652 | the effect of the last key on a member reads back |
| `AdlConvert.RestStaysZero` | src/core/acts/adl/adl.hpp:574-652 | no other byte of the block changes |
| `AdlConvert.FailsExactly` | src/core/acts/adl/adl.hpp:609-611 | the conversion fails exactly if an enum member is not given by a string |
| `AdlConvert.WriteIntVal` | src/core/acts/adl/adl.hpp:534-572 | stores the integer in two's complement, or refuses the size |
| `AdlConvert.ConvertStruct` | src/core/acts/adl/adl.hpp:574-652 | fails exactly on unknown enumerations and values that are no strings; the value named last for a member reads back from its bytes, and bytes of members never given a known value stay zero |
| `PackLaws.VmRead` | src/core/acts/actscli.cpp:234-287 | the loader reads a VM back from its record and its data |
| `PackLaws.OldVmRead` | src/core/acts/actscli.cpp:165-224 | from the old table a VM reads back under its present number, or is passed over |
| `PackLaws.HashesRead` | src/core/acts/actscli.cpp:133-149 | the loader reads the hash table back |
| `PackLaws.LoadsBack` | src/core/acts/actscli.cpp:99-291 | every check passes on a packed file below 4 GiB; the hashes and the first VMs, as many as have an old id, are registered |
| `PackLaws.AllBackIffOlds` | src/core/acts/actscli.cpp:228-236 | all VMs come back if and only if each has an old id |
| `PackFile.PlatformsChosen` | src/core/acts/actscli.cpp:440-489 | a platform is packed if and only if the selection is empty or names it, or platform 0, with the VM; platform 0 keeps all in order |
| `PackFile.VmsChosen` | src/core/acts/actscli.cpp:434-440 | a VM is packed if and only if the selection is empty or has a pair with it; the empty selection keeps all in order, with all platforms |
| `PackFile.PackWriter.AppendString` | src/core/acts/actscli.cpp:361-369 | the string and its zero at the end, nothing else changed |
| `PackFile.PackWriter.CreateBlock` | src/core/acts/actscli.cpp:372-383 | a block of zeros at the end, nothing else changed |
| `PackFile.PackWriter.WriteHashes` | src/core/acts/actscli.cpp:396-417 | the hash table, each entry patched in after its string without disturbing anything |
| `PackFile.PackWriter.WriteVm` | src/core/acts/actscli.cpp:440-489 | name, platform records and opcodes of the selected platforms |
| `PackFile.PackWriter.AddVm` | src/core/acts/actscli.cpp:434-509 | a VM's data at the end, its records in both tables |
| `PackFile.PackWriter.Pack` | src/core/acts/actscli.cpp:386-523 | the finished buffer is the file of the hashes and the selected VMs |
| `PackLoad.Registry.LoadHashes` | src/core/acts/actscli.cpp:131-149 | registers the hash table |
| `PackLoad.LoadChecks` | src/core/acts/actscli.cpp:99-149 | whatever is loaded has the magic, a version, and tables within the file; its hashes are those of the table, each with the text up to the zero |
| `PackLoad.Registry.LoadPackFileData` | src/core/acts/actscli.cpp:99-291 | fails exactly when a check fails; else registers what the file holds; never drops what was registered before |
| `PackLoad.PackThenLoad` | src/core/acts/actscli.cpp:309-535 | packing and loading gives back the hashes, and all VMs with platforms and opcodes if and only if each has an old id; with an empty selection these are all VMs of the map |

## Left out

- VM opcode handlers, stack, threads, AllocRef, AddArray, AddVector, string interning and GetRefValue. Roots stand for all variables outside heap and fields.
- The VM constructor's free list, which links each slot to itself: the pool starts from a well-formed list.
- Vm.ActsVm.AddStringRef: the string is counted once. AddString raises the count of a new string from one to two, which `VmRelease.AddStringOvercounts` shows to break the counts; string interning is not modelled.
- Vm.ActsVm.Release: the variable is outside the heap, or in a node of an array that is going; releasing a slot of a live array that holds itself is not done by the source.
- Vm.ActsVm.CreateVar: requires room in the frame, whose bound the source does not check.
- Vm.ActsVm.SetRefValue: the reference is to a slot some frame holds, which the source does not check; a free slot must not come to hold a value.
- Vm.ActsVm.Run: steps that do not meet one of these two conditions are skipped.
- Linker.ActsVm.LoadScript: registration only; import and string patching, exports and autoexec are not modelled.
- LayoutLaws.PassKeepsShapes: the gap behind the last member is kept for sizes in whole bytes only; LayoutLaws.PassKeepsGaps has no such condition.
- LayoutOneSided.OneSidedIsNative: one direction; orders in which changes of both signs never happen to cancel are covered after the run by LayoutNative.RestIsNative, not before it.
- ReplayLayouts.Replay.Propagate: the hard-coded records before the loop and the checks after it are not modelled; no declared name is a Replay:: name of another. Statements about the native layout take sizes in whole bytes, and declared member sizes that agree with the types that may move.
- Ddl.DDLCompiled.CompleteStruct: when the root has two members that lead back to it and a size overflows 64 bits, only the direction from true is stated.
- DdlBits.ReadDdlMember: the unsigned value only; the sign test of the source reads a value that is still zero, and floats are not decoded.
- Audit.Auditor.AuditPool: all names resolve, union rules fit their unions and rule lists cover their arrays; the recorded target text and the sorted report are not modelled.
- AuditReport.MemberGap: member names have neither [ nor >, which could be read as part of a printed path, and differ from each other; AuditFacts.WalkIs has no such condition.
- AuditReport.MemberFollowed: likewise.
- AuditReport.ElementGap: likewise.
- AuditReport.CaseGap: likewise, but names may repeat, where the last member counts.
- AuditReport.CaseElementGap: likewise.
- Fastfile.Pack: block sizes are not negative.
- Strides.ArrayStrides: parsing of the loader code is a parameter, and shifts that exhaust memory are not modelled.
- Adl.AdlData.Compile: stops at the first error, where the source reports further ones before it fails. Flags, includes, the root name and parsing are not modelled, nor is the packing of kind and number into a 32-bit id.
- AdlDefine.DefineKeepsFine: flag definitions, includes and the root name are not modelled.
- AdlDefine.DefinitionsKeepFine: likewise.
- AdlConvert.ConvertStruct: arrays of enumerations have at least one element and each member passed the guard of AdlLayout.OrderedIffSteady (`AdlConvert.StructIsOrdered`: exactly then members do not overlap). Only enumeration members are written, as in the source.
- PackLoad.PackThenLoad: opcodes, values, flags and counts fit their fields and strings have no zero; the option that omits the hashes is not modelled.
- PackLoad.Registry.LoadPackFileData: a string without an end fails, where the source would read on; which entries were added before a failure is not specified, only that none is lost or changed.
- Hash functions, command lines, files, logs and the user interface.
