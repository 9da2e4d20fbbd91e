# A model of the protobuf core of ProjectD

ProjectD's server sends Protocol Buffers messages over its own packet framing and carries the protobuf
runtime with it. This project models the parts of that runtime and of the generated code that are
hardest to get right, and proves what they are for. Nothing was executed; every statement is a theorem
about the model.

**The descriptor index** (`SymbolNames` to `EncodedRuns`). A sorted table of dotted names is kept free
of names that enclose one another, so that one floor lookup finds the one enclosing symbol. The header's
informal argument is mechanised, with the exact condition under which insertion respects it. The encoded
index is a class over split names in two tiers; its operations are proved against two-tier functions on
joined names, and those, over runs of whole files, against one map of names and one sorted map of symbols.

**The arena** (`ArenaProtocol` to `ArenaBytes`). Two models share the names of the source.
`ArenaProtocol` is a sequentially consistent step relation over any number of threads and arenas: batches of
lifecycle ids, the thread cache, the hint, the linear search, and the lock-free push split into load, set-next
and a compare-and-swap that may fail for no reason. `ArenaSafety` proves what all interleavings keep,
`ArenaProgress` that what was found once is found again, and that a thread left alone gets its answer.
`SerialArena` and `ThreadSafeArena` are classes over abstract addresses with block headers, cleanup nodes and
an allocator whose release demands a live block; `SerialLayout` is the specification of their geometry,
and `Bits` ties its arithmetic to the bit masks of the source.

**The codec** (`Varint` to `PacketRuns`). Message classes with parse loops, sizes and in-place serialisation,
proved against values (`MessageValues`) and a grammar of fields (`Wire`) with unknown fields and groups. The
wire format is that of the Protocol Buffers Encoding guide (sections "Base 128 Varints", "Message Structure",
"Length-Delimited Records", "Repeated Elements", "Last One Wins"), UTF-8 is that of RFC 3629: the
check follows the syntax in its section 4, and is proved to accept what the bit layout in section 3 gives.

**String fields** (`ArenaString`, `StringFields`). One field as a class over a heap of strings; any number of
fields, and their callers, as a state machine against plain string variables.

## Where the code departs from its documentation

The code is modelled as it is; each item is a theorem.

- The comment that the symbol table never holds a name and its parent is not kept when every key is greater
  than the new name, the first key is its child and the second is not: `FindLastLessOrEqual` returns that first
  key and the check skips it (`SymbolTable.NeighbourCheckExact`, `SymbolTable.AddKeepsPrefixFree`, `SymbolTable.BlindSpotExample`).
- In the encoded index a refused duplicate file can take over its name (`NameTiers.RefusedAddHarmlessIff`).
- The encoded comparator is not the order of joined names when a symbol is empty (`SymbolCompare.BeforeIsLess`).
- `CleanupList` rounds a block's end down to 8 and so skips a block of another size with exactly one node
  (`SerialLayout.CleanupsAllVisitedIff`). C++ leaves its pointer difference open there, as the distance is no multiple of
  a node's size; the model rounds it down, as a shift does.
- The last 64-bit lifecycle id with the record tag equals the cache's initial value, and a run reaches it (`ArenaSafety.ThreadCacheAgrees`, `ArenaLimits.LastIdIsReached`).
- `AllocationPolicy::IsDefault` compares the start size with the default maximum; the model does the same.
- `ClearToDefault` keeps the field's own string with and without an arena.
- `MakeSendBuffer` cuts sizes down to 16 bits without a check. For messages of 65532 to 65535 bytes the packet size
  wraps around to 0 to 3, and header and payload overrun the buffer, the chunk and the chunk's own fields; whether the
  program goes on is decided by a byte of the message (`Packet.MakeSendBuffer`, `Packet.NameThatWraps`). All other
  messages that do not fit in a 6000-byte chunk stop the program.
- `OnRecv` passes on packets whose header claims less than a header, which release builds refuse unread and debug
  builds stop at, and for a claim of 0 it does not end (`Packet.HandlePacket`, `Packet.OnRecv`).
- Sizes from INT_MAX - 15 to INT_MAX can be written but not read (`Varint.SizeRoundTripIff`); a parsed
  message can grow past the limit when written again, since a negative enum that came in five bytes is written in ten.

## Model

| member | source | states |
|---|---|---|
| `SymbolNames.ValidateSymbolName` | ProjectD_Server/Libraries/Include/google/protobuf/descriptor_database.cc:153-162 | the byte loop accepts exactly the names made of letters, digits, `_` and `.` (the empty name included) |
| `SymbolNames.SubSymbolIs` | ProjectD_Server/Libraries/Include/google/protobuf/descriptor_database.cc:187-191 | a name equals or encloses another exactly if that one is the same, or the first followed by a dot and anything |
| `SymbolNames.SubSymbolNotGreater` | ProjectD_Server/Libraries/Include/google/protobuf/descriptor_database.cc:187-191 | a name that equals or encloses another sorts no later than it |
| `SymbolNames.ParentsComparable` | ProjectD_Server/Libraries/Include/google/protobuf/descriptor_database.cc:187-191 | two names that both equal or enclose a third: one of them equals or encloses the other |
| `SymbolNames.Between` | ProjectD_Server/Libraries/Include/google/protobuf/descriptor_database.h:248-258 | step of the header's argument: a valid name between an enclosing name and the enclosed one is enclosed too, because `.` sorts before every other valid byte |
| `SymbolTable.ParentIsFloor` | ProjectD_Server/Libraries/Include/google/protobuf/descriptor_database.cc:206-227 | in a prefix-free table of valid names the key that encloses a name is the one `FindLastLessOrEqual` finds |
| `SymbolTable.ChildIsSuccessor` | ProjectD_Server/Libraries/Include/google/protobuf/descriptor_database.cc:229-241 | if any key is enclosed by a name, the first key above the name is |
| `SymbolTable.ConflictIsSeen` | ProjectD_Server/Libraries/Include/google/protobuf/descriptor_database.cc:196-250 | outside the blind spot, any key anywhere that equals, encloses or is enclosed by the new name is noticed by looking at two keys |
| `SymbolTable.NeighbourCheckExact` | ProjectD_Server/Libraries/Include/google/protobuf/descriptor_database.cc:196-250 | for every well-formed table and valid name, the two-neighbour check decides the whole table if and only if the name is not in the blind spot (all keys greater than it, the first key its child, the second, if there is one, not) |
| `SymbolTable.OverlookedIsAccepted` | ProjectD_Server/Libraries/Include/google/protobuf/descriptor_database.cc:168-174 | in the blind spot `FindLastLessOrEqual` returns the first key, `++iter` skips it to a second key that is no child of the name, and a conflicting name is accepted |
| `SymbolTable.AddKeepsPrefixFree` | ProjectD_Server/Libraries/Include/google/protobuf/descriptor_database.h:216-222 | one `AddSymbol` keeps the documented prefix-free invariant if and only if the name is invalid or outside the blind spot |
| `SymbolTable.AddKeepsSorted` | ProjectD_Server/Libraries/Include/google/protobuf/descriptor_database.cc:243-248 | prefix-free or not, an accepted name is new, so the table stays sorted |
| `SymbolTable.AddKeepsBroken` | ProjectD_Server/Libraries/Include/google/protobuf/descriptor_database.cc:196-250 | no later addition restores a lost prefix-free invariant |
| `SymbolTable.MatchUnique` | ProjectD_Server/Libraries/Include/google/protobuf/descriptor_database.h:216-222 | at most one key of a prefix-free table equals or encloses a query |
| `SymbolTable.FindSymbolExact` | ProjectD_Server/Libraries/Include/google/protobuf/descriptor_database.cc:298-305 | for any query bytes: the value of the one key that equals or encloses it, and nothing if and only if there is none |
| `SymbolTable.LookupExactIff` | ProjectD_Server/Libraries/Include/google/protobuf/descriptor_database.h:216-222 | for every sorted table of valid names, lookups are exact for all queries if and only if the table is prefix-free, which is why the invariant matters |
| `SymbolTable.BlindSpotExample` | ProjectD_Server/Libraries/Include/google/protobuf/descriptor_database.cc:229-241 | "foo" added after "foo.bar" is accepted, and a lookup of "foo.baz" then misses "foo" |
| `SimpleDatabase.DescriptorIndex.AddSymbol` | ProjectD_Server/Libraries/Include/google/protobuf/descriptor_database.cc:196-250 | the method's floor, its checks and its insertion produce the same answer and index as the specification step on a sorted table |
| `SimpleDatabase.DescriptorIndex.AddExtension` | ProjectD_Server/Libraries/Include/google/protobuf/descriptor_database.cc:267-289 | first binding of (extendee without its dot, number) wins; an unqualified extendee is ignored with success |
| `SimpleDatabase.DescriptorIndex.AddNestedExtensions` | ProjectD_Server/Libraries/Include/google/protobuf/descriptor_database.cc:253-264 | nested messages first, then own extensions, stopping at the first refusal with what was added so far kept |
| `SimpleDatabase.DescriptorIndex.AddFile` | ProjectD_Server/Libraries/Include/google/protobuf/descriptor_database.cc:117-147 | the whole state and answer; stated against the fields of the file: on success the path (package and a dot, or nothing) with the name of every message, enum, file-level extension and service is bound to the file, and so is every qualified extension, at file level or at any depth of nested messages, under its extendee without the dot; whatever is new in the tables, after a failure too, is one of these; it fails only for a name that is taken, an invalid or related symbol, or a taken extension key |
| `SimpleDatabase.FileAddedKeeps` | ProjectD_Server/Libraries/Include/google/protobuf/descriptor_database.cc:117-147 | an addition, completed or stopped half way, never rebinds a key, and every file reachable by symbol or extension is the one bound to its own name |
| `SimpleDatabase.AddFilesKeeps` | ProjectD_Server/Libraries/Include/google/protobuf/descriptor_database.cc:117-147 | the same over every run of additions, failed ones included |
| `SimpleDatabase.FileAddedDoesAll` | ProjectD_Server/Libraries/Include/google/protobuf/descriptor_database.cc:117-147 | the same of the specification step: what a file declares, read off its fields, is what is added, all of it on success and nothing else ever |
| `SimpleDatabase.FileStepsAre` | ProjectD_Server/Libraries/Include/google/protobuf/descriptor_database.cc:117-147 | the elementary additions that the loops make are exactly the declarations of the file, at any depth |
| `SimpleDatabase.AddedStaysBound` | ProjectD_Server/Libraries/Include/google/protobuf/descriptor_database.cc:117-147 | once a file was added, it stays bound to its name, its symbols and its extension keys through any later additions |
| `SimpleDatabase.FilesPrefixFreeIff` | ProjectD_Server/Libraries/Include/google/protobuf/descriptor_database.cc:117-147 | over a whole run the symbol table stays prefix-free if and only if no addition that was reached fell into the blind spot |
| `SimpleDatabase.DeclaredSymbolFound` | ProjectD_Server/Libraries/Include/google/protobuf/descriptor_database.h:145-148 | after any earlier and later additions, looking up a name that the file declares, read off its fields, or anything nested in it finds the declaring file |
| `MergedDatabase.MergedDescriptorDatabase.FindFileByName` | ProjectD_Server/Libraries/Include/google/protobuf/descriptor_database.cc:953-961 | the first source that knows the name answers |
| `MergedDatabase.MergedDescriptorDatabase.FindFileContainingSymbol` | ProjectD_Server/Libraries/Include/google/protobuf/descriptor_database.cc:963-982 | the first source with an answer decides: its file, or nothing if an earlier source has a file of that name |
| `MergedDatabase.MergedDescriptorDatabase.FindFileContainingExtension` | ProjectD_Server/Libraries/Include/google/protobuf/descriptor_database.cc:984-1005 | the same for extensions |
| `MergedDatabase.AnswersAreBound` | ProjectD_Server/Libraries/Include/google/protobuf/descriptor_database.cc:953-1005 | what a source returns by symbol or extension is bound to its own name in that source |
| `MergedDatabase.MergedLookupsAgree` | ProjectD_Server/Libraries/Include/google/protobuf/descriptor_database.cc:953-1005 | a file returned by symbol or extension is exactly what `FindFileByName` returns for its name; when it is withheld, that lookup returns the earlier source's file |
| `SymbolCompare.BeforeIsLess` | ProjectD_Server/Libraries/Include/google/protobuf/descriptor_database.cc:485-520 | the comparator, with its short cut over first parts, equals the lexicographic order of the joined names if and only if the operands are not degenerate (the right one has an empty symbol, and the left one is the text of its package); stated for every pair of split and plain operands |
| `SymbolCompare.BeforeIsStrictOrder` | ProjectD_Server/Libraries/Include/google/protobuf/descriptor_database.cc:502-520 | for non-empty symbols it is a strict total order on joined names |
| `TwoTiers.MergeSorted` | ProjectD_Server/Libraries/Include/google/protobuf/descriptor_database.cc:804-811 | merging two sorted tiers without common names gives a sorted tier |
| `TwoTiers.WholeAcceptsTiersAccept` | ProjectD_Server/Libraries/Include/google/protobuf/descriptor_database.cc:691-728 | the two tiers never refuse what one sorted map holding their union accepts, blind spot or not |
| `TwoTiers.AddSimulatesIff` | ProjectD_Server/Libraries/Include/google/protobuf/descriptor_database.cc:691-728 | adding to the two tiers gives the answer of the single map, and the tiers go on to represent a single map that keeps the prefix-free invariant, if and only if the tiers do not accept the name while it is in the blind spot of one of them |
| `TwoTiers.AddSameRowsIff` | ProjectD_Server/Libraries/Include/google/protobuf/descriptor_database.cc:691-728 | answer and rows alone, invariant or not: the same as those of a prefix-free single map if and only if that holds or the single map is in the blind spot too |
| `TwoTiers.FlattenSimulates` | ProjectD_Server/Libraries/Include/google/protobuf/descriptor_database.cc:804-819 | `EnsureFlat` turns the flat tier into exactly that one sorted map |
| `TwoTiers.RunLockstepIff` | ProjectD_Server/Libraries/Include/google/protobuf/descriptor_database.cc:691-819 | over every run of adds, lookups and merges, wherever merges happen: the tiers stay in step with a single map that keeps the prefix-free invariant, answer by answer and row by row, if and only if no add of the run is accepted in a blind spot of a tier |
| `TwoTiers.RunRefinesMap` | ProjectD_Server/Libraries/Include/google/protobuf/descriptor_database.cc:691-819 | so all answers of such a run are those of the single map |
| `TwoTiers.MergeMomentVisible` | ProjectD_Server/Libraries/Include/google/protobuf/descriptor_database.cc:664-689 | without the condition the moment of merging shows: the same add is accepted before and refused after |
| `NameTiers.FindNameIs` | ProjectD_Server/Libraries/Include/google/protobuf/descriptor_database.cc:854-863 | lookup after the merge means: the set tier's binding if it has the name, else the first in the flat tier |
| `NameTiers.SuccessfulAddBinds` | ProjectD_Server/Libraries/Include/google/protobuf/descriptor_database.cc:636-643 | a successful addition binds its name and changes no other lookup |
| `NameTiers.RefusedAddHarmlessIff` | ProjectD_Server/Libraries/Include/google/protobuf/descriptor_database.cc:636-643 | a refused duplicate changes no lookup if and only if the name was still in the set tier or the flat tier already answers with the same value |
| `NameTiers.RefusedAddTakesOver` | ProjectD_Server/Libraries/Include/google/protobuf/descriptor_database.cc:636-643 | two adds with a lookup between them: the refused second file is what lookups then find |
| `NameTiers.AddNameSimulatesIff` | ProjectD_Server/Libraries/Include/google/protobuf/descriptor_database.cc:636-643 | an add succeeds exactly for names that a plain first-binding-wins map does not have; the tiers keep answering like that map if and only if it succeeds or its refusal is harmless |
| `NameTiers.NamesLockstepIff` | ProjectD_Server/Libraries/Include/google/protobuf/descriptor_database.cc:624-863 | over whole runs, wherever merges happen: tiers and plain map stay in step if and only if every refusal is harmless |
| `NameTiers.NamesRunRefinesMap` | ProjectD_Server/Libraries/Include/google/protobuf/descriptor_database.cc:624-863 | so all answers of such a run are those of the plain map |
| `EncodedRuns.SymbolsSimulateIff` | ProjectD_Server/Libraries/Include/google/protobuf/descriptor_database.cc:645-661 | the symbols of one file, up to the first refusal: same verdict, same symbols as one sorted map and that map prefix-free, if and only if none is accepted in a blind spot of a tier |
| `EncodedRuns.FileSimulatesIff` | ProjectD_Server/Libraries/Include/google/protobuf/descriptor_database.cc:624-661 | one whole file against a map of names and a sorted, prefix-free map of symbols: same verdict and contents, the invariant included, if and only if its name is new or harmlessly refused and its symbols are clear |
| `EncodedRuns.FilesInStepIff` | ProjectD_Server/Libraries/Include/google/protobuf/descriptor_database.cc:624-863 | over runs of whole files, lookups by name and by symbol, and merges: the encoded index stays in step with the two maps, and the map of symbols prefix-free, if and only if every file added is clear |
| `EncodedRuns.RunFromEmpty` | ProjectD_Server/Libraries/Include/google/protobuf/descriptor_database.cc:624-863 | from a new index on, all answers of a run of clear files, lookups and merges are those of the two maps |
| `EncodedRuns.MapsAddAsDeclared` | ProjectD_Server/Libraries/Include/google/protobuf/descriptor_database.cc:624-661 | on success the file name and every symbol under its package are bound to the bytes of the file, nothing else is new in any case, and it is refused only for its package, its name or a symbol that cannot be added |
| `EncodedRuns.AddedFileIsFound` | ProjectD_Server/Libraries/Include/google/protobuf/descriptor_database.cc:624-863 | in a run of clear files, wherever merges and lookups happen: once a file was added, its name and everything at or below one of its qualified symbols lead to its bytes |
| `EncodedDatabase.AddSymbolOnRows` | ProjectD_Server/Libraries/Include/google/protobuf/descriptor_database.cc:691-728 | the checks and the insertion on split (offset, symbol) entries are those of the two tiers on joined names |
| `EncodedDatabase.DescriptorIndex.CheckForMutualSubsymbols` | ProjectD_Server/Libraries/Include/google/protobuf/descriptor_database.cc:664-689 | decides whether both neighbours of the entry in one tier are clear of it |
| `EncodedDatabase.DescriptorIndex.AddSymbol` | ProjectD_Server/Libraries/Include/google/protobuf/descriptor_database.cc:691-728 | answer and new tiers are those of the two-tier specification; the class invariant is kept |
| `EncodedDatabase.DescriptorIndex.AddFile` | ProjectD_Server/Libraries/Include/google/protobuf/descriptor_database.cc:624-661 | answer and both new tiers for every file: value slot first, package check, name, then symbols up to the first refusal |
| `EncodedDatabase.DescriptorIndex.EnsureFlat` | ProjectD_Server/Libraries/Include/google/protobuf/descriptor_database.cc:813-819 | both indexes are flattened, and the set tiers are empty |
| `EncodedDatabase.DescriptorIndex.FindSymbol` | ProjectD_Server/Libraries/Include/google/protobuf/descriptor_database.cc:771-775 | the two-tier lookup on the tiers before the call, which are then flattened |
| `EncodedDatabase.DescriptorIndex.FindSymbolOnlyFlat` | ProjectD_Server/Libraries/Include/google/protobuf/descriptor_database.cc:777-786 | the flat tier's floor lookup, with nothing changed |
| `EncodedDatabase.DescriptorIndex.FindFile` | ProjectD_Server/Libraries/Include/google/protobuf/descriptor_database.cc:854-863 | binary search after the merge finds the specification's binding |
| `EncodedDatabase.MergeIntoFlat` | ProjectD_Server/Libraries/Include/google/protobuf/descriptor_database.cc:804-811 | the two-index loop of `std::merge` equals the recursive merge, elements of the set tier first when equal |
| `LifecycleIds.TakenIdIsFresh` | ProjectD_Server/Libraries/Include/google/protobuf/arena.cc:261-279 | up to and including the last id of 64 bits: the id `Init` takes is even, below the sentinel and was never handed out, whichever thread takes it; masking the record tag gives it back |
| `LifecycleIds.StepKeepsIds` | ProjectD_Server/Libraries/Include/google/protobuf/arena.cc:261-279 | every step of every thread keeps the per-thread batches disjoint and all handed-out ids distinct |
| `ArenaSafety.RunKeepsInv` | ProjectD_Server/Libraries/Include/google/protobuf/arena.cc:432-456 | the global invariant (chains, owners, privacy of unpublished arenas, caches, hints, ids) holds after every prefix of every interleaving of threads over many arenas, with resets, destruction and spurious CAS failures, until the counter of id batches passes the last one |
| `ArenaSafety.ThreadCacheAgrees` | ProjectD_Server/Libraries/Include/google/protobuf/arena_impl.h:365-402 | whenever the thread cache answers, asked with the tagged or the masked id, it answers with what the linear owner search finds in this arena's current lifetime, if and only if it was not asked with the sentinel; asked with that, a fresh cache answers null |
| `ArenaSafety.HintAndFallbackAgree` | ProjectD_Server/Libraries/Include/google/protobuf/arena_impl.h:375-389 | when the hint answers, and at every later point of the slow path, the serial arena is what the linear search finds; that it does answer is `ArenaProgress.HintAnswersAgain` |
| `ArenaSafety.ListIsExact` | ProjectD_Server/Libraries/Include/google/protobuf/arena.cc:432-456 | the list behind `threads_` is finite and acyclic, holds each published serial arena once, and no two have the same owner |
| `ArenaSafety.NothingLost` | ProjectD_Server/Libraries/Include/google/protobuf/arena.cc:447-456 | under any CAS failures and retries a published serial arena keeps its place from the end of the list until reset or destruction |
| `ArenaSafety.IdsDistinct` | ProjectD_Server/Libraries/Include/google/protobuf/arena.cc:261-279 | up to the last batch, ids handed out in any run are pairwise different, even, and never the sentinel |
| `ArenaSafety.NoFault` | ProjectD_Server/Libraries/Include/google/protobuf/arena.cc:432-456 | in every reachable state a thread inside an arena can take its next step: the arena is alive, and the hint, search cursor or new serial arena it holds can be dereferenced |
| `ArenaProgress.FallbackCaches` | ProjectD_Server/Libraries/Include/google/protobuf/arena_impl.h:365-389 | over every interleaving: once a fallback has found or made a serial arena, the thread is not back before it has cached it under the masked id and stored it as the hint |
| `ArenaProgress.HintAnswersAgain` | ProjectD_Server/Libraries/Include/google/protobuf/arena_impl.h:375-389 | a thread that came back from a fallback on an arena with x finds x through the hint at its next lookup, whatever it used in between, as long as the lifetime goes on and nobody else completes a fallback there |
| `ArenaProgress.CacheAnswersAgain` | ProjectD_Server/Libraries/Include/google/protobuf/arena_impl.h:365-402 | the thread cache, asked with the masked id, answers with x until the thread caches something else or the lifetime ends |
| `ArenaProgress.MakesOnlyIfNone` | ProjectD_Server/Libraries/Include/google/protobuf/arena.cc:432-456 | in every reachable state a serial arena is made only for a thread for which the linear search finds none |
| `ArenaProgress.AloneItIsAnswered` | ProjectD_Server/Libraries/Include/google/protobuf/arena.cc:432-456 | from every reachable state, at any point of the slow path: a thread left alone is back with its answer after at most ten more steps than there are serial arenas in the list |
| `ArenaLimits.IdsDistinctIff` | ProjectD_Server/Libraries/Include/google/protobuf/arena.cc:261-279 | in every run ids are pairwise different if and only if the counter has not passed the last batch of 64 bits, after which 0 is handed out again |
| `ArenaLimits.LastIdIsReached` | ProjectD_Server/Libraries/Include/google/protobuf/arena_impl.h:391-402 | a run of 2^63 initialisations after which an arena that records allocations has the sentinel for its tagged id, and a thread that never used an arena is answered with null |
| `SerialLayout.FirstOk` | ProjectD_Server/Libraries/Include/google/protobuf/arena.cc:108-120 | a new serial arena satisfies the geometry invariant, for every block size with room for it, multiple of 8 or not |
| `SerialLayout.BumpOk` | ProjectD_Server/Libraries/Include/google/protobuf/arena_impl.h:151-166 | plain allocation keeps the geometry invariant |
| `SerialLayout.BumpWithCleanupOk` | ProjectD_Server/Libraries/Include/google/protobuf/arena_impl.h:180-200 | allocation with a cleanup node keeps it |
| `SerialLayout.GrowOk` | ProjectD_Server/Libraries/Include/google/protobuf/arena.cc:149-169 | a new block keeps it |
| `SerialLayout.DataClearOfHeaders` | ProjectD_Server/Libraries/Include/google/protobuf/arena_impl.h:151-166 | every range handed out is 8-aligned, inside one block and clear of every block header |
| `SerialLayout.DataDisjoint` | ProjectD_Server/Libraries/Include/google/protobuf/arena_impl.h:151-166 | no two ranges handed out overlap |
| `SerialLayout.DataClearOfNodes` | ProjectD_Server/Libraries/Include/google/protobuf/arena_impl.h:180-207 | no range overlaps a cleanup node |
| `SerialLayout.NodesDisjoint` | ProjectD_Server/Libraries/Include/google/protobuf/arena_impl.h:180-207 | nodes are clear of every header and of each other |
| `SerialLayout.NodesAligned` | ProjectD_Server/Libraries/Include/google/protobuf/arena_impl.h:180-207 | nodes are 8-aligned if block sizes are multiples of 8 |
| `SerialLayout.SlotsAfterCleanup` | ProjectD_Server/Libraries/Include/google/protobuf/arena_impl.h:189-207 | registering puts the node in front of all earlier ones in teardown order |
| `SerialLayout.CleanupsAllVisitedIff` | ProjectD_Server/Libraries/Include/google/protobuf/arena.cc:179-194 | the walk of `CleanupList` visits exactly all nodes if and only if no block of a size that is not a multiple of 8 holds exactly one node |
| `SerialLayout.EightfoldSizesCount` | ProjectD_Server/Libraries/Include/google/protobuf/arena.cc:179-194 | block sizes that are multiples of 8 suffice |
| `SerialLayout.OddBlockSkipsCleanup` | ProjectD_Server/Libraries/Include/google/protobuf/arena.cc:182-186 | a second block of 1001 bytes with one cleanup: it is never run |
| `SerialLayout.AlignedFits` | ProjectD_Server/Libraries/Include/google/protobuf/arena.h:101-105 | for a power of two above 8, the aligned address is a multiple of it and the object still fits in the size + align - 8 bytes asked for |
| `Bits.AlignToIsMask` | ProjectD_Server/Libraries/Include/google/protobuf/arena.h:101-105 | `(ptr + align - 1) & (~align + 1)`, bit by bit on 64-bit words, is rounding up to a multiple of a power of two |
| `Bits.AlignBy8IsMask` | ProjectD_Server/Libraries/Include/google/protobuf/arena_impl.h:54-57 | `(n + 7) & -8` rounds up to a multiple of 8, `n & -8` down |
| `Bits.IdMasks` | ProjectD_Server/Libraries/Include/google/protobuf/arena_impl.h:356-358 | `& (-kRecordAllocs - 1)` clears the record tag; `id & (kInc - 1)` is the position within a batch of ids |
| `SerialArena.MemorySize` | ProjectD_Server/Libraries/Include/google/protobuf/arena.cc:53-77 | a new block always has room for its header and the request |
| `SerialArena.MemorySizeIs` | ProjectD_Server/Libraries/Include/google/protobuf/arena.cc:53-77 | its exact size by cases: the start size (256 by default) for a first block, twice the last one or the maximum (8192 by default) for a later one, and never less than the request and a header of 24 bytes |
| `SerialArena.SerialArena.constructor` | ProjectD_Server/Libraries/Include/google/protobuf/arena.cc:108-120 | the new arena's layout is its first block with the arena object as first data |
| `SerialArena.SerialArena.AllocateNewBlock` | ProjectD_Server/Libraries/Include/google/protobuf/arena.cc:149-169 | syncs the old header, accounts for the old block, and puts a block of the computed size, live and new, in front; nothing else in memory changes |
| `SerialArena.SerialArena.AllocateAligned` | ProjectD_Server/Libraries/Include/google/protobuf/arena_impl.h:151-158 | always succeeds; if the request fits between data and nodes of the current block, it is served at `ptr_`, no memory is asked for and all blocks are as before; otherwise exactly one new block, of the computed size, serves it; the range returned is the data that is new; other memory is untouched |
| `SerialArena.SerialArena.MaybeAllocateAligned` | ProjectD_Server/Libraries/Include/google/protobuf/arena_impl.h:172-178 | succeeds if and only if the request fits between `ptr_` and `limit_`, and then serves it at `ptr_` |
| `SerialArena.SerialArena.AllocateAlignedWithCleanup` | ProjectD_Server/Libraries/Include/google/protobuf/arena_impl.h:180-200 | the same for the request and a node together: served in the current block, with no memory asked for, exactly if both fit, and otherwise in one new block; the node is new and first in teardown order |
| `SerialArena.SerialArena.AddCleanup` | ProjectD_Server/Libraries/Include/google/protobuf/arena_impl.h:202-207 | the node holds the element and function given, is new, and will be the first to run; a new block is opened exactly if a node does not fit |
| `SerialArena.SerialArena.AllocateObject` | ProjectD_Server/Libraries/Include/google/protobuf/arena.h:556-575 | the object lies inside the range reserved for it, aligned as asked, in the current block exactly if there is room for it; its destructor is registered for the aligned address |
| `SerialArena.SerialArena.SpaceUsed` | ProjectD_Server/Libraries/Include/google/protobuf/arena.cc:171-177 | full blocks plus the current one, less the arena object, from the fields alone |
| `SerialArena.SerialArena.CleanupList` | ProjectD_Server/Libraries/Include/google/protobuf/arena.cc:179-194 | the calls made are the contents of all visited nodes, newest block first; only block headers of this arena are written |
| `SerialArena.SerialArena.Free` | ProjectD_Server/Libraries/Include/google/protobuf/arena.cc:122-132 | exactly all blocks but the first are released, each once and read before its release; the first is returned, and sizes add up |
| `SerialRuns.RunExact` | ProjectD_Server/Libraries/Include/google/protobuf/arena.cc:149-177 | after any run of requests: geometry invariant, used bytes equal to bytes requested, and node contents equal to the registrations, latest first |
| `SerialRuns.SpaceUsedIsRequested` | ProjectD_Server/Libraries/Include/google/protobuf/arena.cc:149-177 | from a fresh arena, `SpaceUsed` is the sum of all data requests, across block changes, nodes excluded |
| `SerialRuns.NewBlockIffFull` | ProjectD_Server/Libraries/Include/google/protobuf/arena_impl.h:149-187 | over every run: each request opened one new block if the newest block had less room than it needs, and none otherwise, so that a block is followed by another only when it was too full |
| `SerialRuns.CleanupsRunInReverseIff` | ProjectD_Server/Libraries/Include/google/protobuf/arena.cc:149-194 | for every run: all registered cleanups run, once each and in reverse order, if and only if each block is a multiple of 8, or holds no node, or at least two |
| `SerialRuns.CleanupsRunInReverse` | ProjectD_Server/Libraries/Include/google/protobuf/arena.cc:149-194 | so it does when the first block and the policy sizes are multiples of 8 |
| `ThreadSafeArena.ThreadSafeArena.constructor` | ProjectD_Server/Libraries/Include/google/protobuf/arena_impl.h:266-281 | the block handed in is used if and only if it is large enough; the policy is stored unless it counts as default, which is: 8192 for both sizes |
| `ThreadSafeArena.ThreadSafeArena.InitializeFrom` | ProjectD_Server/Libraries/Include/google/protobuf/arena.cc:217-226 | no allocation; a first serial arena exactly when the block is large enough |
| `ThreadSafeArena.ThreadSafeArena.InitializeWithPolicy` | ProjectD_Server/Libraries/Include/google/protobuf/arena.cc:228-259 | a user block or one new block holds the serial arena and the policy |
| `ThreadSafeArena.PolicyFits` | ProjectD_Server/Libraries/Include/google/protobuf/arena.cc:248-258 | the policy's own allocation in a block of at least the minimum size cannot fail |
| `ThreadSafeArena.ThreadSafeArena.StorePolicy` | ProjectD_Server/Libraries/Include/google/protobuf/arena.cc:250-258 | the policy becomes the second piece of data in the first block |
| `ThreadSafeArena.ThreadSafeArena.GetSerialArenaFallback` | ProjectD_Server/Libraries/Include/google/protobuf/arena.cc:432-456 | the caller's serial arena: found in the list, with nothing changed, or a fresh one put in front of the others |
| `ThreadSafeArena.ThreadSafeArena.AllocateAligned` | ProjectD_Server/Libraries/Include/google/protobuf/arena_impl.h:295-302 | the data of the serial arena of the caller grows by exactly the range returned, in its current block with no memory asked for if there is room, in one new block otherwise, or in the block of a serial arena made for a thread that had none; all other serial arenas keep theirs, and nothing becomes live that the arena will not give back |
| `ThreadSafeArena.ThreadSafeArena.AddCleanup` | ProjectD_Server/Libraries/Include/google/protobuf/arena.cc:365-372 | the cleanup goes in front of those of the serial arena of the caller, with a new block exactly if a node does not fit; all data and all other registrations stay, and nothing becomes live that the arena will not give back |
| `ThreadSafeArena.ThreadSafeArena.SpaceAllocated` | ProjectD_Server/Libraries/Include/google/protobuf/arena.cc:409-416 | the sum of all block sizes |
| `ThreadSafeArena.ThreadSafeArena.SpaceUsed` | ProjectD_Server/Libraries/Include/google/protobuf/arena.cc:418-425 | exactly the bytes callers asked for since the last reset: arena objects and stored policy are taken off |
| `ThreadSafeArena.ThreadSafeArena.CleanupList` | ProjectD_Server/Libraries/Include/google/protobuf/arena.cc:427-429 | every arena's cleanups in list order |
| `ThreadSafeArena.ThreadSafeArena.Free` | ProjectD_Server/Libraries/Include/google/protobuf/arena.cc:309-317 | releases every block once except the first of the oldest arena, which it returns; never touches an arena whose block is gone |
| `ThreadSafeArena.ThreadSafeArena.Reset` | ProjectD_Server/Libraries/Include/google/protobuf/arena.cc:319-352 | returns the sum of block sizes from just before; the cleanups run are all registered ones under the condition of `ThreadSafeArena.CallsFound`; every block of its own and never the one of the user is released; it starts again with the same policy, in the block of the user if there was one |
| `ThreadSafeArena.ThreadSafeArena.Destroy` | ProjectD_Server/Libraries/Include/google/protobuf/arena.cc:288-307 | afterwards exactly the blocks it owned are gone from memory; cleanups as for `Reset` |
| `ArenaBytes.AllocatedIsLive` | ProjectD_Server/Libraries/Include/google/protobuf/arena.cc:409-416 | what `SpaceAllocated` adds up, and `Reset` returns, is the number of bytes in the live blocks of the arena, counted in memory |
| `ArenaBytes.DestructionBalances` | ProjectD_Server/Libraries/Include/google/protobuf/arena.cc:288-307 | the live memory shrinks by exactly that number, except for a block lent by the user |
| `ThreadSafeArena.MayRelease` | ProjectD_Server/Libraries/Include/google/protobuf/arena.cc:309-317 | when the walk comes to release the block held back, it is live, not the user's, and of the recorded size |
| `ThreadSafeArena.AfterVisit` | ProjectD_Server/Libraries/Include/google/protobuf/arena.cc:309-317 | after each arena of the walk only its first block is left of all visited ones, and byte counts agree |
| `ThreadSafeArena.CallsFound` | ProjectD_Server/Libraries/Include/google/protobuf/arena.cc:427-429 | every registration of every arena runs, once and per arena latest first, if and only if no block of a size that is not a multiple of 8 holds exactly one node |
| `ThreadSafeArena.EightfoldCounted` | ProjectD_Server/Libraries/Include/google/protobuf/arena.cc:179-194 | which block sizes in multiples of 8 guarantee |
| `ThreadSafeArena.DataOfTwo` | ProjectD_Server/Libraries/Include/google/protobuf/arena_impl.h:295-302 | in every valid state no two ranges among the data of all serial arenas overlap |
| `ThreadSafeArena.DataClearOfNodesOfTwo` | ProjectD_Server/Libraries/Include/google/protobuf/arena.cc:365-372 | nor does a range overlap a cleanup node of any serial arena |
| `ArenaRuns.ServeAll` | ProjectD_Server/Libraries/Include/google/protobuf/arena_impl.h:295-321 | for any sequence of requests by any threads: no two of the ranges returned overlap, the bytes served are the bytes asked for, and the registered cleanups are the old ones and those asked for, each once |
| `ArenaRuns.Lifetime` | ProjectD_Server/Libraries/Include/google/protobuf/arena.cc:288-307 | construction, any requests of any threads, destruction: afterwards exactly the memory that was live before is live, the block lent by the user included, and with block sizes in multiples of 8 the cleanups run are exactly the registered ones, each once |
| `ThreadSafeArena.SlotsOfTwo` | ProjectD_Server/Libraries/Include/google/protobuf/arena.cc:365-372 | no two serial arenas share a cleanup node |
| `Varint.Varint64RoundTrip` | ProjectD_Server/Libraries/Include/google/protobuf/parse_context.h:527-543 | every 64-bit value is read back from its encoding, whatever follows |
| `Varint.TagRoundTrip` | ProjectD_Server/Libraries/Include/google/protobuf/parse_context.h:551-567 | every 32-bit tag is read back |
| `Varint.SizeRoundTripIff` | ProjectD_Server/Libraries/Include/google/protobuf/parse_context.cc:363-381 | a size is read back if it is at most INT_MAX - 16, and refused otherwise |
| `Varint.VarintSizeExact` | ProjectD_Server/Libraries/Include/google/protobuf/io/coded_stream.h:1682-1712 | the closed formula (log2 * 9 + 73) / 64 is the exact encoded length for every 64-bit value |
| `Varint.EncodeByte` | ProjectD_Server/Libraries/Include/google/protobuf/io/coded_stream.h:901-925 | byte i of an encoding holds group i of seven bits of the value, lowest group first, with the high bit set on all bytes but the last |
| `Varint.ReadersStopAt` | ProjectD_Server/Libraries/Include/google/protobuf/parse_context.cc:339-381 | what the three readers make of any bytes, of minimal length or not: the payload up to the first byte below 128, if that is soon enough, and for sizes within the limits |
| `Varint.ReadVarint64` | ProjectD_Server/Libraries/Include/google/protobuf/parse_context.cc:339-350 | adding (byte - 1) << 7i per byte, modulo 2^64, computes the varint's value and length for every byte string |
| `Varint.ReadTag` | ProjectD_Server/Libraries/Include/google/protobuf/parse_context.cc:352-361 | the same for tags, at most five bytes, modulo 2^32 |
| `Varint.ReadSize` | ProjectD_Server/Libraries/Include/google/protobuf/parse_context.cc:363-381 | the same for sizes, with the limits on the fifth byte and on the value |
| `Output.WriteVarint` | ProjectD_Server/Libraries/Include/google/protobuf/io/coded_stream.h:901-925 | writing in place, each continuation bit set afterwards, leaves exactly the encoding and no other byte changed |
| `Wire.FieldRoundTrip` | ProjectD_Server/Libraries/Include/google/protobuf/unknown_field_set.cc:283-327 | any well-formed field, nested groups included, is read back from what is written, whatever follows |
| `Wire.GroupRoundTrip` | ProjectD_Server/Libraries/Include/google/protobuf/wire_format.cc:192-228 | the same for the fields of a group up to its own end tag |
| `Wire.DecodeEncode` | ProjectD_Server/Libraries/Include/google/protobuf/wire_format.cc:192-228 | decoding the encoding of any well-formed fields gives them back |
| `Wire.LongDataRefused` | ProjectD_Server/Libraries/Include/google/protobuf/parse_context.cc:402-407 | bytes above the size limit stop the reader |
| `Wire.WrongEndRefused` | ProjectD_Server/Libraries/Include/google/protobuf/parse_context.h:842-858 | a group closed under another number is refused, whatever it holds |
| `Wire.OpenGroupRefused` | ProjectD_Server/Libraries/Include/google/protobuf/parse_context.h:842-858 | so is one that is not closed |
| `Wire.DecodeIsWellFormed` | ProjectD_Server/Libraries/Include/google/protobuf/parse_context.h:795-840 | whatever decodes consists of fields that can be written and read back |
| `UnknownFields.ReadString` | ProjectD_Server/Libraries/Include/google/protobuf/parse_context.cc:402-407 | the size and the bytes before the limit, or failure, for every byte string |
| `UnknownFields.ParseField` | ProjectD_Server/Libraries/Include/google/protobuf/parse_context.h:795-840 | the switch over wire types agrees with the grammar of fields |
| `UnknownFields.ParseGroup` | ProjectD_Server/Libraries/Include/google/protobuf/parse_context.h:842-858 | the loop up to the matching end tag agrees with the grammar of groups |
| `UnknownFields.ComputeSize` | ProjectD_Server/Libraries/Include/google/protobuf/wire_format.cc:266-306 | the size computed is the exact length that is written |
| `UnknownFields.Serialize` | ProjectD_Server/Libraries/Include/google/protobuf/wire_format.cc:192-228 | the encoding is written at the position, nothing else changes |
| `UnknownFields.WriteString` | ProjectD_Server/Libraries/Include/google/protobuf/io/coded_stream.cc:921-927 | tag, size and bytes |
| `MessageValues.EnumRoundTrip` | ProjectD_Server/ProjectD_Server/Struct.pb.cc:268-272 | an enum value survives sign extension to 64 bits and truncation back |
| `MessageValues.NegativeTakesTen` | ProjectD_Server/ProjectD_Server/Struct.pb.cc:268-272 | an enum is written as its two's complement in 64 bits, which takes ten bytes if and only if it is negative |
| `Utf8Strings.Utf8Exact` | ProjectD_Server/ProjectD_Server/Struct.pb.cc:170-177 | the check on strings accepts exactly the concatenations of encodings of Unicode scalar values (0 to 0x10FFFF without the surrogates), with the encoding written down from the bit layout in section 3 of RFC 3629 |
| `MessageBytes.PlayerBytes` | ProjectD_Server/ProjectD_Server/Struct.pb.cc:211-246 | the bytes of a player: 0x08 and the id, 0x12 with size and name, 0x18 and the sign-extended type, each only if it is not the default, and then the unknown fields |
| `MessageBytes.LoginBytes` | ProjectD_Server/ProjectD_Server/Protocol.pb.cc:341-367 | the bytes of a login: 0x08 0x01 if the flag is set, 0x12 with size and bytes for every player in order, and then the unknown fields |
| `MessageBytes.ChatBytes` | ProjectD_Server/ProjectD_Server/Protocol.pb.cc:1107-1135 | the bytes of a chat line: 0x08 and the id, 0x12 with size and text, each only if set, and then the unknown fields |
| `MessageBytes.PlayerFrom` | ProjectD_Server/ProjectD_Server/Struct.pb.cc:155-209 | a player parsed from any sequence of fields: refused exactly if some name is no UTF-8; otherwise the last id, name and type win, and every other field, of another number or wire type, is kept in order |
| `MessageBytes.LoginFrom` | ProjectD_Server/ProjectD_Server/Protocol.pb.cc:291-339 | a login parsed from any sequence of fields: the last flag wins, every player is parsed on its own and appended in order, every other field is kept |
| `MessageBytes.ChatFrom` | ProjectD_Server/ProjectD_Server/Protocol.pb.cc:1060-1105 | the same for chat lines |
| `MessageValues.PlayerParseMerges` | ProjectD_Server/ProjectD_Server/Struct.pb.cc:155-306 | parsing what y serialises to into x gives `MergeFrom` of y into x if y's name is valid UTF-8 and within the size limit, and fails otherwise |
| `MessageValues.ParsedPlayerRoundTrips` | ProjectD_Server/ProjectD_Server/Struct.pb.cc:155-246 | every byte string that parses gives a message that serialises and parses back to itself, unknown fields included |
| `MessageValues.LoginParseMerges` | ProjectD_Server/ProjectD_Server/Protocol.pb.cc:291-416 | the same law for S_LOGIN through the nested players: merge if all names are valid UTF-8 and no player is above the size limit, failure otherwise |
| `MessageValues.LoginConcatMerges` | ProjectD_Server/ProjectD_Server/Protocol.pb.cc:291-416 | parsing serialise(x) followed by serialise(y) gives the merge of y into x if in both all names are valid UTF-8 and no player is larger than INT_MAX - 16 bytes, and fails otherwise |
| `MessageValues.LoginRoundTripIff` | ProjectD_Server/ProjectD_Server/Protocol.pb.cc:291-367 | parse(serialise(x)) = x if and only if all names are valid UTF-8 and no player is larger than INT_MAX - 16 bytes |
| `MessageValues.ParsedLoginRoundTrips` | ProjectD_Server/ProjectD_Server/Protocol.pb.cc:291-367 | every byte string that parses gives a message that parses back to itself if and only if re-encoding left all players within the size limit |
| `MessageValues.ChatConcatMerges` | ProjectD_Server/ProjectD_Server/Protocol.pb.cc:1060-1186 | concatenation is merge, for S_CHAT, if both texts are valid UTF-8 and within the size limit; otherwise the parse fails |
| `MessageValues.ChatRoundTripIff` | ProjectD_Server/ProjectD_Server/Protocol.pb.cc:1060-1135 | round trip if and only if the text is valid UTF-8 and within the size limit |
| `PlayerMessage.Player.InternalParse` | ProjectD_Server/ProjectD_Server/Struct.pb.cc:155-209 | on every byte range the loop terminates, fails exactly when the specification does, and otherwise leaves exactly its value; which names are text is `Utf8Strings.Utf8Exact` |
| `PlayerMessage.Player.ByteSizeLong` | ProjectD_Server/ProjectD_Server/Struct.pb.cc:248-275 | the exact serialised length, ten-byte negative enums included, also left in the cached size |
| `PlayerMessage.Player.InternalSerialize` | ProjectD_Server/ProjectD_Server/Struct.pb.cc:211-246 | the encoding is written at the position, nothing else changes |
| `PlayerMessage.Player.MergeFrom` | ProjectD_Server/ProjectD_Server/Struct.pb.cc:290-306 | fields that are set win, unknown fields are appended |
| `PlayerMessage.Player.CopyFrom` | ProjectD_Server/ProjectD_Server/Struct.pb.cc:308-313 | the value becomes the other's, also when both are the same object |
| `PlayerMessage.Player.Clear` | ProjectD_Server/ProjectD_Server/Struct.pb.cc:142-153 | the empty message |
| `LoginMessage.Login.InternalParse` | ProjectD_Server/ProjectD_Server/Protocol.pb.cc:291-339 | the loop refines one-tag-at-a-time parsing on every byte range |
| `LoginMessage.Login.ParsePlayers` | ProjectD_Server/ProjectD_Server/Protocol.pb.cc:305-317 | the inner loop over repeated tags refines one-tag-at-a-time parsing wherever the stream's buffers end |
| `LoginMessage.Login.ByteSizeLong` | ProjectD_Server/ProjectD_Server/Protocol.pb.cc:369-390 | the exact serialised length; each player's cached size is set |
| `LoginMessage.Login.InternalSerialize` | ProjectD_Server/ProjectD_Server/Protocol.pb.cc:341-367 | with cached sizes in place, exactly the encoding is written |
| `LoginMessage.Login.MergeFrom` | ProjectD_Server/ProjectD_Server/Protocol.pb.cc:405-416 | players are appended as copies, so the two messages share none |
| `LoginMessage.Login.CopyFrom` | ProjectD_Server/ProjectD_Server/Protocol.pb.cc:418-423 | the value becomes the other's, also when both are the same object |
| `LoginMessage.Login.Clear` | ProjectD_Server/ProjectD_Server/Protocol.pb.cc:280-289 | the empty message |
| `LoginMessage.Login.SerializeToArray` | ProjectD_Server/Libraries/Include/google/protobuf/message_lite.cc:484-495 | succeeds if and only if the message fits in the room given and in INT_MAX bytes; then exactly the encoding is written |
| `LoginMessage.Login.ParseFromArray` | ProjectD_Server/Libraries/Include/google/protobuf/message_lite.cc:324-326 | clears first, then parses the whole range |
| `LoginMessage.ParseMessage` | ProjectD_Server/Libraries/Include/google/protobuf/parse_context.cc:279-298 | a nested message: its size, a limit, one level of depth less |
| `ChatMessage.Chat.InternalParse` | ProjectD_Server/ProjectD_Server/Protocol.pb.cc:1060-1105 | as for Player, on every byte range |
| `ChatMessage.Chat.ByteSizeLong` | ProjectD_Server/ProjectD_Server/Protocol.pb.cc:1137-1158 | the exact serialised length |
| `ChatMessage.Chat.InternalSerialize` | ProjectD_Server/ProjectD_Server/Protocol.pb.cc:1107-1135 | the encoding is written at the position, nothing else changes |
| `ChatMessage.Chat.MergeFrom` | ProjectD_Server/ProjectD_Server/Protocol.pb.cc:1173-1186 | fields that are set win, unknown fields are appended |
| `Packet.MakeSendBuffer` | ProjectD_Server/ProjectD_Server/ClientPacketHandler.h:55-71 | for a message that fits in a 6000-byte chunk its packet comes back, behind what was used before, in the same chunk if and only if it fits there; for a length from 65532 to 65535 header and payload are written behind a buffer of at most three bytes, past the chunk and over its fields, and a buffer comes back exactly if the byte that lands on `_open` passes for true; otherwise the program stops; bytes go behind the buffer exactly when the length modulo 65536 is from 65532 to 65535; what was sent before stays |
| `Packet.HandlePacket` | ProjectD_Server/ProjectD_Server/ClientPacketHandler.h:45-53 | for every packet size: a message is handed over exactly when the size is at least that of a header and the bytes behind it parse, and it is the parsed one; below that, a release build refuses without reading and a debug build stops |
| `Packet.HeaderLayout` | ProjectD_Server/ProjectD_Server/ClientPacketHandler.h:63-65 | the four bytes of a header, as written and as read: size before id, each with its low byte first |
| `Packet.PacketRoundTripIff` | ProjectD_Server/ProjectD_Server/ClientPacketHandler.h:45-71 | the header gives the whole packet's size and the id, and the payload parses back to the message if and only if its names are valid UTF-8 |
| `Packet.SendAndReceive` | ProjectD_Server/ProjectD_Server/ClientPacketHandler.h:45-71 | for every message: sent and received unchanged exactly when it fits in a chunk and its names are valid UTF-8; of a packet whose size wrapped around nothing is received |
| `Packet.NameThatWraps` | ProjectD_Server/ProjectD_Server/ClientPacketHandler.h:58-69 | ordinary messages that overrun the chunk: one player with a valid name of 65524 times the same letter; in a fresh chunk letter 0 stops the program, letter 1 does not, and any other is up to the compiler |
| `Packet.OnRecv` | ProjectD_Server/ProjectD_Server/ClientPacketHandler.h:34-38 | how the received bytes are cut into the packets handed over here (`PacketSession::OnRecv`, ServerCore/Session.cpp, lines 325 to 348): exactly the packets of the specification, or, from a packet of size 0 on, no end |
| `Packet.StreamRoundTrip` | ProjectD_Server/ProjectD_Server/ClientPacketHandler.h:45-71 | packets with true sizes, one after the other and followed by part of another, come out as they went in, and that part is kept |
| `Packet.PiecesDoNotMatter` | ProjectD_Server/ProjectD_Server/ClientPacketHandler.h:34-38 | bytes received in two pieces give the packets they give in one |
| `PacketRuns.SendAll` | ProjectD_Server/ProjectD_Server/ClientPacketHandler.h:55-71 | over any sequence of messages that fit: in the end every buffer handed out holds its packet, and the messages are unchanged |
| `PacketRuns.StreamOfMessages` | ProjectD_Server/ProjectD_Server/ClientPacketHandler.h:45-71 | the packets of any messages that fit, as one stream followed by part of another packet: exactly these packets come out, and in each the message if and only if its names are valid UTF-8 |
| `SendBuffers.SendBuffers.Open` | ProjectD_Server/ProjectD_Server/ClientPacketHandler.h:59-61 | the chunk behind `GSendBufferManager->Open` (ServerCore/SendBuffer.cpp, lines 46 to 88): refused only above a 6000-byte chunk; otherwise the next buffer starts behind what is used, in the old chunk or a blank one, and the chunk is open |
| `SendBuffers.SendBuffers.Close` | ProjectD_Server/ProjectD_Server/ClientPacketHandler.h:69-69 | `SendBufferChunk::Close` (ServerCore/SendBuffer.cpp, lines 58 to 63): stops unless the byte of `_open` is true; then exactly the two fields of the chunk change |
| `ArenaString.ArenaStringPtr.Set` | ProjectD_Server/Libraries/Include/google/protobuf/arenastring.cc:73-80 | a new string if the field still shares the default, else a write to its own; afterwards the field has that text |
| `ArenaString.ArenaStringPtr.Mutable` | ProjectD_Server/Libraries/Include/google/protobuf/arenastring.cc:120-160 | afterwards the field has a string of its own, with the default's text if it was created now |
| `ArenaString.ArenaStringPtr.Release` | ProjectD_Server/Libraries/Include/google/protobuf/arenastring.cc:162-191 | nothing from a default field; otherwise the caller gets a heap string with the text the field had: the string itself without an arena, a new one with one; the field is back at its default |
| `ArenaString.ArenaStringPtr.SetAllocated` | ProjectD_Server/Libraries/Include/google/protobuf/arenastring.cc:193-216 | the old string is deleted without an arena; the new one is taken over, or copied and deleted in debug builds, and the field has its text |
| `ArenaString.ArenaStringPtr.Destroy` | ProjectD_Server/Libraries/Include/google/protobuf/arenastring.cc:218-226 | the field's own string is deleted, without an arena only |
| `ArenaString.ArenaStringPtr.Clear` | ProjectD_Server/Libraries/Include/google/protobuf/arenastring.cc:236-257 | the string is kept and its text replaced; the default is not touched |
| `ArenaString.ArenaStringPtr.Swap` | ProjectD_Server/Libraries/Include/google/protobuf/arenastring.h:356-381 | the two pointers change places |
| `StringFields.StepKeeps` | ProjectD_Server/Libraries/Include/google/protobuf/arenastring.cc:73-257 | every operation on any field keeps: default unwritten, one owner for each string, no leak, nothing deleted twice, and the plain model: a text for each field and a text for each string that a caller has |
| `StringFields.RunKeeps` | ProjectD_Server/Libraries/Include/google/protobuf/arenastring.cc:73-257 | the same over every run |
| `StringFields.FieldsReadAsStrings` | ProjectD_Server/Libraries/Include/google/protobuf/arenastring.cc:73-257 | after any run each field reads as its plain variable, the strings that callers have are those of the plain model with its texts, and the shared default is still empty |
| `StringFields.NoAliasing` | ProjectD_Server/Libraries/Include/google/protobuf/arenastring.cc:73-257 | after any run no string belongs to two fields, or to a field and a caller |
| `StringFields.HeapAccounted` | ProjectD_Server/Libraries/Include/google/protobuf/arenastring.cc:162-226 | after any run, once the fields without an arena are destroyed: each string ever created is either live or was deleted exactly once, and what is live on the heap is a caller's |
| `StringFields.SetAllocatedKeeps` | ProjectD_Server/Libraries/Include/google/protobuf/arenastring.cc:193-216 | null, taken over or copied, with and without an arena: the invariants of `StepKeeps` hold and the caller no longer owns what it gave |
| `StringFields.ReleaseKeeps` | ProjectD_Server/Libraries/Include/google/protobuf/arenastring.cc:162-191 | the field is back at its default and the caller owns what was released, and nobody else does; the text is the subject of `StringFields.ReleaseGives` |
| `StringFields.ReleaseGives` | ProjectD_Server/Libraries/Include/google/protobuf/arenastring.cc:162-191 | with and without an arena: the caller has one string more, on the heap and new to the callers, and its text is what the field read as before; a field at its default gives nothing |
| `StringFields.OwnStringIsReused` | ProjectD_Server/Libraries/Include/google/protobuf/arenastring.cc:73-80 | a field with a string of its own keeps that string when it is set, changed or cleared: nothing is created |

## Left out

- Extension tiers of the encoded index, `FindAllExtensionNumbers`, `FindAllFileNames`, `FindAllPackageNames`, `FindAllMessageNames`: they repeat the by-name tiers or only list.
- Parsing of descriptor bytes in `EncodedDescriptorDatabase::Add`, and `DescriptorPoolDatabase`: a file comes as a record of names; enum values, services and extensions go in as the symbol list does.
- The owning wrapper of `SimpleDescriptorDatabase` and `MaybeCopy`: the index itself stands for it.
- `EncodedDatabase.DescriptorIndex.AddSymbol`: asks for a non-empty symbol, because the comparator is no order otherwise; `SymbolCompare.BeforeIsLess` covers the empty one.
- `EncodedDatabase.DescriptorIndex.AddFile`: for the same reason asks for a file without empty symbol names.
- Overflow of `size_t` in block sizes and totals: sizes are unbounded.
- Weak memory orders: the protocol is sequentially consistent; `Init` is one step, as the source leaves its synchronisation to the caller.
- `ThreadSafeArena.ThreadSafeArena.GetSerialArenaFallback`: no other thread pushes during the call in this class; interleavings are the subject of `ArenaProtocol`, which has no addresses or blocks.
- The metrics collector and user-supplied block functions: every block comes from one allocator.
- Tag bits in pointers (`tagged_ptr_`, the low bits of `alloc_policy_`, donated strings): kept as separate fields; `IsDonatedString` is always false in this version.
- Address sanitizer hooks, run-time type information, move semantics.
- `ThreadSafeArena::AllocateAlignedWithCleanup` for objects: only the serial arena's object allocation is modelled.
- Buffers of the input and output streams and their 16 slop bytes: input is one byte range, and a read past a limit fails at once instead of at the next check; where a buffer could end inside the players loop is any position. Which fields a failed parse has already set is not stated.
- Reuse of cleared elements in `RepeatedPtrField`: a new element is always a new object.
- The table-driven UTF-8 scanner: replaced by the syntax in section 4 of RFC 3629, and `Utf8Strings.Utf8Exact` says what that accepts.
- Enum values are 32-bit integers; no set of named values restricts them, as in proto3.
- `PlayerMessage.Player.ByteSizeLong`: asks for names below 4 GiB, as do the other writers for names, texts and players; above, 32-bit casts lose bits.
- `Packet.MakeSendBuffer`: memory behind a chunk is followed as far as a packet can reach and is taken to be writable and of no other use; whether a byte other than 0 and 1 in a `bool` passes for true is a parameter.
- The other generated messages, `S_CHAT` framing, sessions, the receive buffer and handlers: further instances of the same code, or I/O.
- `SendBuffers.SendBuffers.Open`: chunks released by the pool are not reused.
- `MutableNoCopy`, `MutableNoArenaNoDefault`, `DestroyNoArena`: folded into `Mutable` and `Destroy`, with an empty text or no arena. The debug variant of `InternalSwap` that copies on purpose is not modelled.
