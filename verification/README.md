# Verification of the stateful cores

Dafny models of algorithms of this repository that change shared state step by step, with proofs of
what every step keeps and what whole runs guarantee. `dafny verify dfyconfig.toml` checks them all.

* `Basics`: what several models share.
* `DepGraph`, `CtorOrder`, `CtorQueue`: the dynamic linker's dependency closure and constructor queue.
* `CtorProtocol`: constructors and finalisers over all interleavings of threads, as a state machine; `CtorProgress`: what a
  thread can always come to in it.
* `Lists`, `LoadOrder`: lists that grow by what they lack, and the order in which libraries are loaded.
* `SymbolLookup`: the two symbol hashes, the two hash tables and the search through a scope.
* `LazyReloc`, `LazyChain`, `LazyRun`: deferred relocation, the buffers it lives in, and whole runs of loading and retrying.
* `LazyLinks`: the chain of libraries that wait, also when it has become a loop. `LazyCalls`: that it is the chain of
  `LazyRun`.
* `Words`, `TlsLayout`, `TlsInstall`: machine words, the layout of TLS blocks and the storage for running threads.
* `Dlopen`: `dlopen` as a transaction over the linker's lists, with rollback.
* `Fwu`: the firmware-update service of BL1; `FwuRun`: its runs since the reset of the board.
* `Ehf`: exception priorities at EL3. `Handoff`: the boot hand-off list.
* `Crc16`: the table-driven CRC. `CircularList`: the intrusive list. `MetalIo`: physical addresses and offsets.

DSOs are numbers in the graph algorithms and in `Dlopen`, where each link field is a map from a DSO to the next, and
heap objects in `LazyChain` and `LazyRun`. A failed assertion or a panic ends the run: the method says so in its result or in
`halted`. What the environment answers (memory, platform hooks, authentication, running priority, files on disk) is a
parameter or any value.

Where code and comments disagree the model follows the code:

* `ehf_deactivate_priority` leaves the mask at the level just deactivated, not at the next one as its comment says, so
  that level cannot be activated again at once (`Ehf.Pe.Reactivate`).
* `bl1_fwu_image_check_overlaps` asserts that an image ends after its base, which fails for an image of one byte in the
  table (`Fwu.Bl1.OneByteHalts`), and that no image of the table is in RESET, which a failing pre-load hook brings about
  (`Fwu.Bl1.FailedHookHalts`). `Fwu.Bl1.ImageCopy` halts exactly then.
* The size copied of an image is kept when its authentication fails. If the secure world then authenticates the image in
  place, resetting it clears that many bytes at its base, and another image may have been copied there
  (`Fwu.Bl1.StaleSizesClear`).
* dlopen promises that deferred relocations are retried until they are resolved. When the new library is among its own
  dependencies, as with two new libraries that need each other, or a dependency is listed twice, `prepare_lazy` is called
  twice for one library: the lazy chain becomes a loop, and the libraries that waited before the call are never retried
  again (`LazyLinks.PreparedChain`, `LazyLinks.PreparedTwice`, `LazyLinks.MutualNeedLoses`). The retries end even so.
* A deferred relocation gets what the final scope gives it. One that was resolved at first keeps that value, so it differs
  from relocation under the final scope in two cases, and in no other (`LazyRun.RunIsTransparent`, `LazyReloc.LocalMoves`):
  a weak reference that nothing defined stays 0 though a later library defines it (`LazyReloc.WeakStaysZero`), and a
  library opened without RTLD_GLOBAL keeps the definitions that left the scope with the call (`LazyReloc.LocalDiffers`).
* `metal_io_phys_to_offset` does not end for a region that reaches into the last page of the address space when nothing
  visited maps to the address (`MetalIo.NeverEnds`), and needs aligned frames (`MetalIo.UnalignedIsMissed`);
  `MetalIo.EndlessSearch` is such a region.

Assumptions, each stated as a precondition or in the definition of a well-formed state:

* The tables of a DSO are well formed in the sense of their format: hash chains end, every defined symbol is hashed.
* The sums of sizes in the TLS computations stay below the address space; alignments are powers of two.
* Relocation slots of the libraries are distinct; the global scope, under which relocations are retried, keeps the
  definitions it has. The scope under which a library is relocated first is any.
* One thread exits, once. Before a call of `dlopen` every library of the chain is relocated and has its dependencies.
* `image_base + image_max_size` does not wrap, and each call comes from the world that is running. That only the normal
  world has images authenticated, or that no world writes over an image that waits, is a premise where a row says so.
* Priorities passed to `ehf_activate_priority` and `ehf_deactivate_priority` are exact priorities of levels.

## Model

| member | source | states |
|---|---|---|
| CtorQueue.Linker.QueueCtors | open_source/musl/ldso/dynlink.c:1449-1516 | for every dependency graph, cycles and repeated edges included, the loop ends with a terminated queue that is a constructor order: each DSO reachable from the root exactly once, and for an edge p to q where q cannot reach p, q before p; it is the order of the recursive depth-first search, in which DSOs that do not depend on each other stand too; the marks of everything queued are cleared |
| CtorQueue.Linker.Sort | open_source/musl/ldso/dynlink.c:1480-1505 | queue and stack grow towards each other in one buffer sized by the number of reachable DSOs plus one and never meet; one slot stays free for the terminator; the queue is the order of the recursive depth-first search |
| CtorQueue.Linker.Deepen | open_source/musl/ldso/dynlink.c:1493-1502 | walking down keeps the traversal invariant and the layout of the shared buffer, and stops at a DSO all of whose dependencies are done or on the stack |
| CtorQueue.Linker.SizeQueue | open_source/musl/ldso/dynlink.c:1460-1468 | the count bounds everything reachable, whether it was taken from the finished breadth-first list or from the whole chain, and all reachable marks are clear |
| CtorQueue.Linker.UnmarkQueue | open_source/musl/ldso/dynlink.c:1506 | exactly the queued DSOs lose their marks |
| CtorQueue.ListHoldsReachable | open_source/musl/ldso/dynlink.c:1460-1463 | a finished breadth-first list together with its owner holds everything reachable, so its length is a valid size for the queue |
| CtorOrder.Begin | open_source/musl/ldso/dynlink.c:1483-1488 | the traversal invariant holds at the start |
| CtorOrder.StepOver | open_source/musl/ldso/dynlink.c:1494-1495 | skipping a marked dependency keeps the invariant: it is on the stack, hence part of a cycle, or already queued |
| CtorOrder.Descend | open_source/musl/ldso/dynlink.c:1496-1501 | exploring an unmarked dependency keeps the invariant; every DSO on the stack reaches the ones above it |
| CtorOrder.Finish | open_source/musl/ldso/dynlink.c:1503 | a DSO moved to the queue has each dependency queued before it or reaching it |
| CtorOrder.Done | open_source/musl/ldso/dynlink.c:1491-1505 | when the stack is empty the queue is a constructor order of exactly the reachable DSOs |
| CtorOrder.ExploreIsDepthFirst | open_source/musl/ldso/dynlink.c:1483-1505 | marks of DSOs that the root does not reach have no influence: with the reachable ones unmarked the recursive search visits as in a chain without marks |
| CtorOrder.FitsIn | open_source/musl/ldso/dynlink.c:1480-1504 | queue and stack together never hold more DSOs than any bound on the reachable ones |
| CtorQueue.Linker.ExtendBfsDeps | open_source/musl/ldso/dynlink.c:1248-1297 | terminates although the scanned list grows; the direct dependencies are the prefix, every other transitively needed DSO follows exactly once and nothing else does; the list is the direct dependencies and then what each member of it needs in turn, each at its first occurrence; other lists are untouched and all marks end cleared |
| CtorQueue.Linker.Grow | open_source/musl/ldso/dynlink.c:1270-1293 | the scan of the growing list ends with the closure under direct dependencies, in breadth-first order |
| CtorQueue.Linker.AppendNew | open_source/musl/ldso/dynlink.c:1287-1292 | the room counted beforehand is enough for what is appended, repetitions among the direct dependencies included, and the terminator fits; appended are the dependencies that the list did not have, each once, in their order |
| CtorQueue.Linker.CountNew | open_source/musl/ldso/dynlink.c:1272-1273 | the count is the number of unmarked direct dependencies, repetitions counted |
| CtorQueue.Linker.Enlarge | open_source/musl/ldso/dynlink.c:1274-1286 | the longer list starts with the old one and has room for the counted additions and the terminator |
| CtorQueue.AppendKeeps | open_source/musl/ldso/dynlink.c:1287-1291 | appending an unmarked dependency of a scanned DSO keeps list and marks in step, and the list within its bound |
| CtorQueue.GrownIsClosure | open_source/musl/ldso/dynlink.c:1270-1293 | a list scanned to its end holds exactly what the DSO depends on |
| CtorQueue.BreadthFirstOrder | open_source/musl/ldso/dynlink.c:1270-1293 | two entries behind the direct dependencies stand in the order of the first member of the list that needs each, and if that is the same one in the order in which it lists them |
| Lists.JoinedMeans | open_source/musl/ldso/dynlink.c:1287-1291 | appending what is absent, one by one, keeps the list as a prefix and adds each missing member once, in the order of first occurrence |
| CtorProtocol.RunInv | open_source/musl/ldso/dynlink.c:1518-1556 | every state of every interleaving of any number of threads in do_init_fini, with nested calls from constructors, and one exiting thread satisfies the protocol invariant |
| CtorProtocol.HistoryIsOrderly | open_source/musl/ldso/dynlink.c:1518-1556 | in every run each DSO's constructors start at most once and never after shutdown, finish in the thread that started them, and finalisers run at most once, only for constructed DSOs, in reverse order of the claims |
| CtorProtocol.AtMostOneVisitor | open_source/musl/ldso/dynlink.c:1527-1550 | no two calls, of one thread or of two, are inside the constructors of one DSO |
| CtorProtocol.MutualExclusion | open_source/musl/ldso/dynlink.c:1524-1555 | no two calls hold init_fini_lock at the same time |
| CtorProtocol.ReturnFindsAllSettled | open_source/musl/ldso/dynlink.c:1525-1555 | when do_init_fini returns, each DSO of its queue is constructed or under construction by the same thread |
| CtorProtocol.ExitFinalisesAll | open_source/musl/ldso/dynlink.c:1408-1436 | at the end of the finaliser chain every claimed DSO with finalisers was finalised exactly if it is constructed; one that is not is under construction by the exiting thread itself |
| CtorProtocol.FiniFollows | open_source/musl/ldso/dynlink.c:1421-1433 | the next DSO of the finaliser chain was claimed before every one finalised so far |
| CtorProgress.CallReturns | open_source/musl/ldso/dynlink.c:1518-1556 | while the lock is free, the process is not shutting down and no other thread constructs what is left of its queue, a call can return by steps of its own thread, from the first entry and from within the wait: afterwards what is left of the queue is constructed or visited by that thread, every DSO that nobody had claimed was claimed and constructed by it, and if all was claimed before nothing else has changed |
| CtorProgress.ScansToEnd | open_source/musl/ldso/dynlink.c:1525-1555 | the same from where the call holds the lock |
| CtorProgress.Constructs | open_source/musl/ldso/dynlink.c:1529-1554 | an unclaimed DSO is claimed, constructed and published by three steps of the thread |
| CtorProgress.LockIsGivenUp | open_source/musl/ldso/dynlink.c:1418-1556 | in every state of every run the thread that holds init_fini_lock can give it up by its own steps, or is the exiting thread and can come to the end of the chain of finalisers |
| CtorProgress.ExitEnds | open_source/musl/ldso/dynlink.c:1408-1436 | while the lock is free and no other thread is inside constructors of the chain, the exiting thread can come to the end of the chain by its own steps, from its start and from within the wait: it then has shut down and run the finalisers of exactly the constructed DSOs left, in the order of the chain |
| CtorProgress.DueMeans | open_source/musl/ldso/dynlink.c:1421-1433 | the finalisers that are due are those of the constructed DSOs of the chain, and no others |
| CtorProgress.ShutdownHoldsCalls | open_source/musl/ldso/dynlink.c:1526-1527 | in every run: once the process shuts down, a call with DSOs left in its queue stays at the same one and never returns |
| CtorProgress.GetsIsRun | open_source/musl/ldso/dynlink.c:1518-1556 | what a thread can come to by its own steps from a state of a run is a state of a longer run |
| SymbolLookup.SysvHash | open_source/musl/ldso/dynlink.c:231-240 | equals the hash of section 'Hash Table', chapter 5 of the System V gABI for every string, though the top nibble is not cleared in each round |
| SymbolLookup.FoldsAgree | open_source/musl/ldso/dynlink.c:235-239 | one round of the linker's hash agrees with a round of the reference hash on the low 28 bits |
| SymbolLookup.GnuHash | open_source/musl/ldso/dynlink.c:242-249 | is the 33-times hash from 5381 modulo 2 to the 32, for every string |
| SymbolLookup.GnuLookup | open_source/musl/ldso/dynlink.c:265-284 | returns the match of lowest index among the hashed symbols, or None exactly when none matches |
| SymbolLookup.GnuLookupFiltered | open_source/musl/ldso/dynlink.c:286-296 | in a table whose filter has the bits of every hashed symbol in the places the format names, the same answer as without the pre-check |
| SymbolLookup.FilterReads | open_source/musl/ldso/dynlink.c:286-296 | the two masked and shifted reads of the filter find exactly the two bits that the format names: in the word at the hash divided by 64 modulo the number of words, at the hash modulo 64 and at the shifted hash modulo 64 |
| SymbolLookup.SysvLookup | open_source/musl/ldso/dynlink.c:251-263 | returns the first match along the bucket's chain, and the walk ends |
| SymbolLookup.SysvMissesNothing | open_source/musl/ldso/dynlink.c:251-263 | None means that no symbol but the reserved one matches |
| SymbolLookup.BucketOfTable | open_source/musl/ldso/dynlink.c:251-263 | in a table laid out as two counts, the buckets and the chain entries, a hash selects the bucket of its remainder |
| SymbolLookup.LinkOfTable | open_source/musl/ldso/dynlink.c:251-263 | and the entry of a symbol is the next symbol of its chain |
| SymbolLookup.FindSym | open_source/musl/ldso/dynlink.c:308-337 | equals the naive search: the first DSO in scope whose looked-up symbol passes the filters, with its index; the answer has the name and a visible version, with need_def a section, without it a section or a non-zero value, a zero value only for TLS, and an admitted type and binding |
| SymbolLookup.AdmittedByMask | open_source/musl/ldso/dynlink.c:298-331 | the admitted types and bindings are those of the shift-and-mask test, for all 16 values of each half of st_info |
| SymbolLookup.FirstIsAnswer | open_source/musl/ldso/dynlink.c:313-330 | a symbol offered by the first DSO of the scope is the answer exactly if its fields pass: not TLS and without need_def where it has no section, a value unless TLS, and an admitted type and binding |
| SymbolLookup.StubAndDefinition | open_source/musl/ldso/dynlink.c:323-326 | an undefined function with a stub in the program and its definition in a library: with need_def the answer is the definition, without it the stub |
| SymbolLookup.OfferMatches | open_source/musl/ldso/dynlink.c:313-324 | an offered symbol has the name and a version that is not hidden |
| SymbolLookup.OfferUnique | open_source/musl/ldso/dynlink.c:313-324 | a DSO offers one symbol for a name, whichever hash table it has |
| SymbolLookup.DefinitionUnique | open_source/musl/ldso/dynlink.c:308-337 | the search has one answer, and appending DSOs to the scope does not change an answer that was found |
| LazyReloc.DoRelocs | open_source/musl/ldso/dynlink.c:344-521 | one table: memory, the deferred rows and success are those of the specified pass over the entries as they were, even when the table read is the buffer that is rewritten |
| LazyReloc.Keep | open_source/musl/ldso/dynlink.c:399-405 | a deferred entry goes behind the rows already kept and overwrites no row that is still to be read |
| LazyReloc.RelocOne | open_source/musl/ldso/dynlink.c:368-446 | one entry: written, skipped, deferred with its addend or failed, as its type and the scope say |
| LazyReloc.PassPointwise | open_source/musl/ldso/dynlink.c:344-521 | with distinct slots a pass gives each slot what that entry alone would, touches nothing else, and defers exactly the unresolved deferrable entries, in order, with their original addends |
| LazyReloc.PassRelocates | open_source/musl/ldso/dynlink.c:368-446 | after a pass that reached the end, as arithmetic modulo 2 to the 64: a relative slot, and a SYM_OR_REL one without symbol, holds base plus addend; symbolic, GOT and PLT slots hold symbol value plus addend; an offset slot plus its own address is value plus addend; the addend of an entry without one is 0 for GOT and PLT and the old content otherwise; an entry whose symbol is missing may wait, does so with its addend, and its slot is as it was |
| LazyReloc.PassReachesEnd | open_source/musl/ldso/dynlink.c:389-446 | a pass reaches the end if and only if every type is supported and each entry whose symbol is missing may wait |
| LazyReloc.RelativeMoves | open_source/musl/ldso/dynlink.c:439-441 | one table relocated at two bases: its relative slots differ by the difference of the bases |
| LazyReloc.EntryOfRow | open_source/musl/ldso/dynlink.c:355-367 | row k of a table is one entry: offset, info word and, in a table with addends, addend |
| LazyReloc.RetryKeeps | open_source/musl/ldso/dynlink.c:523-541 | a retry never fails and keeps exactly its unresolved entries, unchanged and in order |
| LazyReloc.RetriesSettle | open_source/musl/ldso/dynlink.c:523-541 | after any number of retries under any scopes every slot holds the value of the first scope that resolved it plus the addend at deferral, or is untouched and still waits |
| LazyReloc.DeferralIsTransparent | open_source/musl/ldso/dynlink.c:389-410 | one table, relocated under any scope and retried under scopes that the final one extends: once nothing waits, relocating it at once under the final scope would succeed and make the same memory if and only if no entry has moved, that is was resolved at first and is unresolved or has another symbol value under the final scope |
| LazyReloc.SlotOutcome | open_source/musl/ldso/dynlink.c:389-410 | slot by slot, for any first scope: it holds what the final scope gives it exactly if its entry has not moved, and no deferred entry has |
| LazyReloc.MovedIsLate | open_source/musl/ldso/dynlink.c:393-410 | if the final scope keeps what the first one had, the entries that move are exactly the weak references that were undefined at first and are defined elsewhere than at 0 later |
| LazyReloc.LocalMoves | open_source/musl/ldso/dynlink.c:2119-2134 | a library opened without RTLD_GLOBAL: an entry that uses a symbol has moved exactly if the global scope did not define it, the library's own scope or its weakness resolved it, and the final scope gives no value or another one |
| LazyReloc.LocalDiffers | open_source/musl/ldso/dynlink.c:2119-2134 | such a library that refers to its own symbol at 5: relocated under the global scope it would fail, and with a later definition at 9 it would get 9 |
| LazyReloc.WeakStaysZero | open_source/musl/ldso/dynlink.c:389-410 | a weak reference that is undefined at first keeps 0 where relocation under the later scope writes 5 |
| LazyReloc.RetryAgain | open_source/musl/ldso/dynlink.c:523-541 | retrying a library twice under one scope is retrying it once |
| LazyRun.RunIsTransparent | open_source/musl/ldso/dynlink.c:344-541 | over any run of libraries being put on the chain, relocated in full under any scopes, those of RTLD_LOCAL calls included, and retried in rounds under growing global scopes: once nothing waits, relocating all of them at once under the final scope would succeed and make the same memory if and only if no entry of any library has moved |
| LazyRun.OnlyLateMove | open_source/musl/ldso/dynlink.c:2119-2134 | where no definition left the scope, none has moved exactly if no reference is weak, undefined at first and defined elsewhere than at 0 later |
| LazyRun.AtOnceFailsNot | open_source/musl/ldso/dynlink.c:1353-1378 | if relocating many libraries at once succeeds, no entry fails in the memory of before |
| LazyRun.RunKeeps | open_source/musl/ldso/dynlink.c:344-541 | in every state of such a run each slot holds what its entry wrote at first, or is untouched and waits, or holds what the final scope gives it, and no other address has changed |
| LazyRun.RelocateKeeps | open_source/musl/ldso/dynlink.c:1353-1378 | relocating a library keeps this |
| LazyRun.RedoKeeps | open_source/musl/ldso/dynlink.c:523-541 | a round of retries over the whole chain keeps this |
| LazyRun.KeptOk | open_source/musl/ldso/dynlink.c:523-541 | after a round exactly the entries that the scope leaves unresolved wait, in their libraries, each library once |
| LazyRun.AtOncePointwise | open_source/musl/ldso/dynlink.c:1353-1378 | relocating many libraries one after the other gives each slot what its own entry would write in the memory of before |
| LazyChain.Linker.PrepareLazy | open_source/musl/ldso/dynlink.c:2010-2030 | the buffer has the computed size, and one call keeps the chain a chain if and only if the library was not in it already |
| LazyLinks.PreparedChain | open_source/musl/ldso/dynlink.c:2113-2118 | the whole loop over a library and its dependencies, on a chain that ends and none of them is in: the chain is afterwards the reversed list of those prepared with the old chain behind it if and only if none was prepared twice; otherwise it does not end and every library that waited before is off it |
| LazyLinks.EndsIffFresh | open_source/musl/ldso/dynlink.c:2113-2118 | for any list: the chain still ends if and only if the list has no repetition and meets no member of the chain |
| LazyLinks.PreparedTwice | open_source/musl/ldso/dynlink.c:2113-2118 | some library is prepared twice exactly if the new one depends on itself or a direct dependency that can wait is listed twice |
| LazyLinks.MutualNeedLoses | open_source/musl/ldso/dynlink.c:2113-2118 | two new libraries that need each other: the closure list names the opened one again, the two end up linked to each other, and nothing that waited before is reached from lazy_head |
| LazyLinks.PushFollows | open_source/musl/ldso/dynlink.c:2028-2029 | what following the links visits after a library is put in front, one that was there already included |
| LazyLinks.ReachedIsTrail | open_source/musl/ldso/dynlink.c:523-541 | what is found from lazy_head is exactly the trail |
| LazyLinks.EndsIffList | open_source/musl/ldso/dynlink.c:523-541 | following the links ends if and only if some finite list without repetition describes them |
| LazyLinks.RedoneMembers | open_source/musl/ldso/dynlink.c:523-541 | a retry over any chain, loops included, leaves exactly those on it that still have something unresolved; a loop is gone exactly if the library it led back to is done |
| LazyLinks.WaitingAfterwards | open_source/musl/ldso/dynlink.c:2113-2139 | over a call: with no library prepared twice, exactly the old and new libraries with something unresolved are on the chain; with one, none of the old ones is |
| LazyCalls.CallIsTrail | open_source/musl/ldso/dynlink.c:2113-2139 | libraries prepared, relocated and retried: the chain after the call is the one that the links make, where the libraries that stay on it are those in which the relocations left an entry that the scope of the retry does not resolve |
| LazyCalls.RedoIsRedone | open_source/musl/ldso/dynlink.c:523-541 | a round of retries on the heap and one on the links leave the same chain, in the same order |
| LazyCalls.UnsettledMeans | open_source/musl/ldso/dynlink.c:531-532 | a library stays exactly if an entry of it waits and the scope does not resolve it |
| LazyChain.LoopIsNoChain | open_source/musl/ldso/dynlink.c:2028-2029 | putting a library on the chain a second time makes a loop that no list describes |
| LazyChain.CapacitySuffices | open_source/musl/ldso/dynlink.c:2016 | the rows reserved exceed the rows of all three tables, whichever kind the PLT table is |
| LazyChain.RowOfTable | open_source/musl/ldso/dynlink.c:355-367 | a table with addends has rows of three words and one without of two; each row is one entry |
| LazyChain.Linker.RelocateLibrary | open_source/musl/ldso/dynlink.c:1353-1378 | relocating the three tables of a library is one pass over all their entries: memory, success and what waits, which the reserved buffer never overflows |
| LazyChain.Linker.RedoLazyRelocs | open_source/musl/ldso/dynlink.c:523-541 | every library on the chain is retried once; exactly those with something left are on the new chain, each with what it still waits for, and the others have their buffer and link cleared |
| LazyChain.Linker.Requeue | open_source/musl/ldso/dynlink.c:530-540 | one library goes back on the chain exactly if something is still unresolved |
| LazyChain.EntriesOfRows | open_source/musl/ldso/dynlink.c:399-405 | reading the rows of a deferral buffer gives back the entries that were kept |
| TlsLayout.PlaceIsSound | open_source/musl/ldso/dynlink.c:1175-1184 | in both layouts the new block starts where the used space ends or behind it, wastes less than its alignment and has the residue of its image |
| TlsLayout.FirstBelowIsSound | open_source/musl/ldso/dynlink.c:1870-1871 | the main program's own formula below the thread pointer is sound in the same sense |
| TlsLayout.AlignRoundsUp | open_source/musl/ldso/dynlink.c:42 | ALIGN gives the least multiple of a power of two that is not below x |
| Words.MaxP2IsMax | open_source/musl/ldso/dynlink.c:41 | the bit trick is the maximum of two powers of two |
| Words.Pow2Divides | open_source/musl/ldso/dynlink.c:1174 | hence every module's alignment divides tls_align |
| TlsLayout.SoundGrows | open_source/musl/ldso/dynlink.c:1172-1184 | adding a sound block keeps all blocks pairwise disjoint, congruent and aligned to divisors of the maximum |
| TlsLayout.TlsState.AppendApp | open_source/musl/ldso/dynlink.c:1860-1874 | placing the main program's block establishes the invariant |
| TlsLayout.TlsState.Append | open_source/musl/ldso/dynlink.c:1172-1184 | appending any module with a power-of-two alignment keeps the blocks disjoint and sound, and tls_align their maximum |
| TlsLayout.TlsState.TlsSize | open_source/musl/ldso/dynlink.c:1576-1586 | the size is a multiple of every module's alignment and has room for the DTV, the blocks, the descriptor and two alignments |
| TlsInstall.NoWrap | open_source/musl/ldso/dynlink.c:1150-1157 | the check against the thread count keeps the multiplication from wrapping |
| TlsInstall.StorageSuffices | open_source/musl/ldso/dynlink.c:1150-1157 | for every path length, number of threads and power-of-two alignment the last thread's room ends inside the allocation |
| TlsInstall.InsideOwn | open_source/musl/ldso/dynlink.c:1185-1187 | each DTV and block lies behind the stored path and inside the allocation, DTVs before blocks |
| TlsInstall.PieceInside | open_source/musl/ldso/dynlink.c:1588-1632 | over all new libraries, what is handed out lies inside its own allocation and each block is congruent to its image modulo the alignment |
| TlsInstall.PiecesApart | open_source/musl/ldso/dynlink.c:1588-1632 | no two DTVs or blocks overlap, across threads and libraries |
| TlsInstall.InstallNewTls | open_source/musl/ldso/dynlink.c:1588-1632 | with as many threads as the storage was reserved for, every thread's new DTV counts all modules, keeps the old slots and points to its own block of every new library; each DTV and block lies inside the allocation of its library and apart from every other one |
| TlsInstall.LoadedIsNumbered | open_source/musl/ldso/dynlink.c:1588-1632 | libraries that hold storage for consecutive modules are numbered in the order in which the walk meets them |
| TlsInstall.PieceOwnsStorage | open_source/musl/ldso/dynlink.c:1588-1632 | each piece is inside its allocation and apart from all other pieces |
| Dlopen.Linker.Dlopen | open_source/musl/ldso/dynlink.c:2032-2139 | a transaction: on failure the DSO chain, the global-symbol chain, the TLS modules, their count, offset and alignment and the lazy chain are as before and every library loaded meanwhile is freed; success only appends, leaves the global-symbol chain alone without RTLD_GLOBAL and with it appends the library and then its dependencies, those that were absent, each once, in that order; with or without, every library is relocated while the chain is so extended; the new libraries, the TLS modules and the recorded dependencies are in the order of breadth-first loading; the lazy chain is then the one that preparing the listed libraries and retrying makes: all that still wait if none was prepared twice, none of the old ones otherwise; all lists stay free of cycles and duplicates, so the same holds of every later call |
| Dlopen.Linker.PrepareAll | open_source/musl/ldso/dynlink.c:2113-2118 | the links are those of putting the library and its dependencies on the chain one by one, without those that are relocated or bind at once |
| Dlopen.Linker.RedoLazyRelocs | open_source/musl/ldso/dynlink.c:523-541 | ends for every chain, loops included; the chain is then the retried one |
| Dlopen.Linker.Run | open_source/musl/ldso/dynlink.c:2032-2139 | any sequence of calls, each of which may fail anywhere, keeps the lists sound and never drops a library that was loaded |
| Dlopen.Linker.constructor | open_source/musl/ldso/dynlink.c:2056-2063 | the program and the linker alone are a sound start |
| Dlopen.Linker.LoadAndCommit | open_source/musl/ldso/dynlink.c:2066-2134 | the two ends of the transaction after the first load: rolled back to the snapshot, or committed with the lazy chain retried |
| Dlopen.Linker.Rollback | open_source/musl/ldso/dynlink.c:2066-2095 | from any state in between restores all lists, the lazy chain and the counters of the start, leaks no library and leaves none of the freed ones on a list |
| Dlopen.Linker.FreeNew | open_source/musl/ldso/dynlink.c:2069-2082 | frees exactly the libraries behind the old tail |
| Dlopen.Linker.RestoreTls | open_source/musl/ldso/dynlink.c:2085-2090 | cuts the TLS chain back to the old tail, down to nothing if there was none |
| Dlopen.Linker.LoadNew | open_source/musl/ldso/dynlink.c:2107-2128 | success settles every library of the chain: relocated, with dependencies that are loaded |
| Dlopen.Linker.LoadLibrary | open_source/musl/ldso/dynlink.c:1036-1200 | returns the library of the chain that has the file; loads a file only if no library of the chain has it, and then appends exactly one library |
| Dlopen.Linker.LoadDeps | open_source/musl/ldso/dynlink.c:1241-1246 | terminates although libraries are appended while it walks: each one uses up a file; on success every library from the given one on has the libraries of its needed files recorded in order, and the chain has grown by what each of them in turn needs |
| Dlopen.Linker.LoadDirectDeps | open_source/musl/ldso/dynlink.c:1204-1239 | the recorded dependencies are the libraries of the needed files in their order, and the chain has grown by those that were not loaded, each once, in that order; a failure records nothing |
| Dlopen.Linker.AddSyms | open_source/musl/ldso/dynlink.c:1313-1319 | appends exactly when the library is not on the global-symbol chain yet |
| Dlopen.Linker.AddAll | open_source/musl/ldso/dynlink.c:2121-2125 | the global-symbol chain grows by the library and then its dependencies, those that were absent, each once, in order of first occurrence |
| Dlopen.Linker.Bind | open_source/musl/ldso/dynlink.c:2119-2128 | what is relocated is relocated while the chain is so extended, also where the extension is taken back later |
| Dlopen.Linker.ExtendDeps | open_source/musl/ldso/dynlink.c:1248-1297 | the recorded list becomes the direct dependencies and then what each member needs, in breadth-first order |
| Dlopen.Linker.LoadGraph | open_source/musl/ldso/dynlink.c:2107-2109 | files, chain, TLS modules and direct dependencies of all new libraries in the order in which they are needed, and the list of the opened one |
| Dlopen.Linker.Commit | open_source/musl/ldso/dynlink.c:2130-2139 | without RTLD_GLOBAL the chain of global symbols is again the one of before, with it the extended one; then the lazy chain is retried |
| LoadOrder.OpenedIsLoaded | open_source/musl/ldso/dynlink.c:1204-1246 | loading a file and then, for each new library in turn, what it needs brings in the files that are named, in that order, each once |
| LoadOrder.BroughtTogether | open_source/musl/ldso/dynlink.c:1204-1246 | bringing in one list of names and then another is bringing in the two together |
| Dlopen.MemberTest | open_source/musl/ldso/dynlink.c:1315 | the test of two links is membership in the chain |
| Dlopen.Linker.RevertSyms | open_source/musl/ldso/dynlink.c:1321-1333 | the chain is again the one that ended at the old tail, and no dropped library keeps a link |
| Dlopen.Linker.RelocAll | open_source/musl/ldso/dynlink.c:1353-1378 | success means that every library from the given one on is relocated |
| Dlopen.ChoppedIsList | open_source/musl/ldso/dynlink.c:1326-1332 | walking the chain and clearing each link leaves the front of it a list |
| Dlopen.Sweep | open_source/musl/ldso/dynlink.c:2069-2082 | after freeing the back of the chain every library ever allocated is in the chain or freed, and no dependency list of a surviving library names a freed one |
| FwuRun.Run | open_source/arm-trusted-firmware-2.7/bl1/bl1_fwu.c:53-100 | the calls, platform answers and memory writes of any length that are made until one halts are a run: each one takes the state before it to the state after it as its step says |
| FwuRun.RunFromReset | open_source/arm-trusted-firmware-2.7/bl1/bl1_fwu.c:53-100 | the same from the reset of the board on, where nothing has been copied or authenticated; the state reached is safe for every image |
| FwuRun.RunInv | open_source/arm-trusted-firmware-2.7/bl1/bl1_fwu.c:53-100 | every state of every run from the reset satisfies the invariant |
| FwuRun.StepKeeps | open_source/arm-trusted-firmware-2.7/bl1/bl1_fwu.c:224-745 | each step, success or failure, keeps the invariant |
| FwuRun.SecureMemoryIsCopied | open_source/arm-trusted-firmware-2.7/bl1/bl1_fwu.c:349-358 | in every run in which only the normal world has images authenticated: a secure image that waits is in memory as the clipped blocks of its successful copies since its last reset, one behind the other, unless a world wrote over it |
| FwuRun.MemoryIsCopied | open_source/arm-trusted-firmware-2.7/bl1/bl1_fwu.c:349-358 | in every run: the same of each image that was copied since its last reset and waits, unless a world wrote over it or the reset of an image that was not copied since its own last reset cleared it |
| FwuRun.ExecutesWhatWasAuthenticated | open_source/arm-trusted-firmware-2.7/bl1/bl1_fwu.c:367-547 | in every run in which only the normal world has images authenticated: an image that is executed was authenticated after its last reset, and unless a world wrote over it in between, the bytes executed are the bytes authenticated |
| FwuRun.ExecutedIsAuthenticated | open_source/arm-trusted-firmware-2.7/bl1/bl1_fwu.c:503-547 | in every run: a secure image that is authenticated, executed or interrupted had a successful authentication after its last reset |
| FwuRun.CopiedShareNothing | open_source/arm-trusted-firmware-2.7/bl1/bl1_fwu.c:164-219 | in every run: two images that were copied and not reset since share no address, whatever became of them |
| FwuRun.SecureShareNothing | open_source/arm-trusted-firmware-2.7/bl1/bl1_fwu.c:164-219 | where only the normal world has images authenticated, no two secure images that are not reset share an address |
| FwuRun.SecureIsCopied | open_source/arm-trusted-firmware-2.7/bl1/bl1_fwu.c:382-399 | there a secure image that is not reset was copied after its last reset |
| FwuRun.BystanderStays | open_source/arm-trusted-firmware-2.7/bl1/bl1_fwu.c:224-745 | in every run: an image that was copied and waits keeps state, sizes and bytes, whatever calls are made for other images, unless a world wrote over it or the reset of an image authenticated in place did |
| FwuRun.SecureBystanderStays | open_source/arm-trusted-firmware-2.7/bl1/bl1_fwu.c:224-745 | where only the normal world has images authenticated, nothing but a write by a world or a call for it changes a secure image that waits |
| FwuRun.ViaMeans | open_source/arm-trusted-firmware-2.7/bl1/bl1_fwu.c:224-745 | the images that count as copied are those with a successful copy after which they were never in RESET |
| FwuRun.AuthedMeans | open_source/arm-trusted-firmware-2.7/bl1/bl1_fwu.c:367-498 | the images that count as authenticated are those with a successful authentication after which they were never in RESET |
| Fwu.Reachable | open_source/arm-trusted-firmware-2.7/bl1/bl1_fwu.c:254-358 | the invariant makes every image safe: COPYING means 0 < copied < size <= max and COPIED copied = size; a secure image is EXECUTED exactly when the secure world runs and it is the recorded one; a secure image that is not reset has exactly one slot; a record of copied bytes that was kept is what is in memory |
| Fwu.CopiedAreApart | open_source/arm-trusted-firmware-2.7/bl1/bl1_fwu.c:164-219 | two images that were copied and not reset since share no address |
| Fwu.SlotOf | open_source/arm-trusted-firmware-2.7/bl1/bl1_fwu.c:112-158 | a secure image that is not reset occupies one slot and no other |
| Fwu.Bl1.CheckOverlaps | open_source/arm-trusted-firmware-2.7/bl1/bl1_fwu.c:164-219 | each of its three answers is given exactly: passes if and only if every other image in the table is sane and disjoint; fires an assertion if and only if the first entry that is not so is in RESET, has one byte or wraps; reports an overlap if and only if that entry is sane and overlaps, and else none has an address in common |
| Fwu.RefusedIfShared | open_source/arm-trusted-firmware-2.7/bl1/bl1_fwu.c:177-216 | without a firing assertion the check passes if and only if no other image in the table has an address in common |
| Fwu.FirstCopyAdmitted | open_source/arm-trusted-firmware-2.7/bl1/bl1_fwu.c:282-346 | a first copy whose source and size are in order is admitted if and only if no image in the table has an address in common with it, the source is mapped and a slot is left |
| Fwu.Bl1.OneByteHalts | open_source/arm-trusted-firmware-2.7/bl1/bl1_fwu.c:200-207 | copying an image of one byte and then any other image halts |
| Fwu.Bl1.FailedHookHalts | open_source/arm-trusted-firmware-2.7/bl1/bl1_fwu.c:341-348 | an image whose pre-load hook fails stays in the table in RESET, and copying another image then halts |
| Fwu.Bl1.AddLoadedId | open_source/arm-trusted-firmware-2.7/bl1/bl1_fwu.c:120-139 | the id is in the table afterwards, in its old slot or in the first empty one; fails exactly when it has none and the table is full |
| Fwu.Bl1.RemoveLoadedId | open_source/arm-trusted-firmware-2.7/bl1/bl1_fwu.c:145-158 | clears the slot of the id, or fails when there is none |
| Fwu.Bl1.ImageCopy | open_source/arm-trusted-firmware-2.7/bl1/bl1_fwu.c:224-362 | succeeds if and only if the call is admitted and the hook allows it, and halts if and only if the overlap check of a first copy fires an assertion; the state, sizes, memory, table and recorded blocks after success; a call without success leaves memory and state alone, answers ENOMEM if and only if the source range, the size, the mapping or a slot is what is lacking and EPERM otherwise, and leaves the size that it checked |
| Fwu.Bl1.BeginCopy | open_source/arm-trusted-firmware-2.7/bl1/bl1_fwu.c:282-318 | a first copy is let through if and only if its size is within the limit and its range meets no other image in the table, and halts if and only if an assertion fires; the size is recorded |
| Fwu.Bl1.CopyingSizes | open_source/arm-trusted-firmware-2.7/bl1/bl1_fwu.c:269-281 | the assertions of a further copy never fire |
| Fwu.CopyKeeps | open_source/arm-trusted-firmware-2.7/bl1/bl1_fwu.c:352-358 | copying one image keeps the recorded contents of all others |
| Fwu.Bl1.ImageAuth | open_source/arm-trusted-firmware-2.7/bl1/bl1_fwu.c:367-498 | the states from which each world may authenticate, and what success and failure leave; a copied image that fails is zeroed and loses its slot |
| Fwu.Bl1.ImageExecute | open_source/arm-trusted-firmware-2.7/bl1/bl1_fwu.c:503-546 | succeeds if and only if the normal world asks for a secure executable image that is authenticated |
| Fwu.Bl1.ImageResume | open_source/arm-trusted-firmware-2.7/bl1/bl1_fwu.c:552-614 | from the secure world always succeeds and interrupts the recorded image; from the normal world resumes it if interrupted, is refused if there is none and halts otherwise |
| Fwu.Bl1.SecImageDone | open_source/arm-trusted-firmware-2.7/bl1/bl1_fwu.c:619-671 | the assertions never fire; the image is reset, loses its slot and the normal world runs |
| Fwu.Bl1.ImageReset | open_source/arm-trusted-firmware-2.7/bl1/bl1_fwu.c:692-745 | the outcome for each state; what was copied is zeroed and nothing else; no other image loses its record unless this one was authenticated in place and its stale copied size reaches into that image; the assertion on the security state never fires |
| Fwu.ResetKeeps | open_source/arm-trusted-firmware-2.7/bl1/bl1_fwu.c:712-737 | resetting one image keeps the contents of all others whose record is kept |
| Fwu.AuthKeeps | open_source/arm-trusted-firmware-2.7/bl1/bl1_fwu.c:405-474 | authentication keeps the invariant, in place or after a copy |
| Fwu.SwitchKeeps | open_source/arm-trusted-firmware-2.7/bl1/bl1_fwu.c:503-614 | entering and leaving a secure image keeps at most one executed |
| Fwu.Bl1.Store | open_source/arm-trusted-firmware-2.7/bl1/bl1_fwu.c:349-352 | a write by either world, anywhere, is made and keeps the invariant; exactly the waiting images whose copied bytes it meets lose their record |
| Fwu.Bl1.StaleSizesClear | open_source/arm-trusted-firmware-2.7/bl1/bl1_fwu.c:367-498 | a run in which an image is copied and waits with a byte that was copied, and still waits when that byte is zeroed by resetting another image, authenticated in place with the copied size of an earlier copy that failed |
| Fwu.ClearingSpares | open_source/arm-trusted-firmware-2.7/bl1/bl1_fwu.c:717-729 | a single reset that zeroes a range spares what another image holds if and only if that is zero wherever it lies in the range |
| Fwu.ClearingSparesAll | open_source/arm-trusted-firmware-2.7/bl1/bl1_fwu.c:717-729 | clearing the recorded copied size at the base spares another image whatever it holds, if and only if one of the two copied sizes is 0 or the two ranges are disjoint |
| Ehf.Pe.ActivatePriority | open_source/arm-trusted-firmware-2.7/bl31/ehf.c:99-154 | succeeds if and only if the level is valid, above the running priority, above every active level and below the mask; pushes the level, programs its priority and keeps the mask to be restored |
| Ehf.Pe.DeactivatePriority | open_source/arm-trusted-firmware-2.7/bl31/ehf.c:166-218 | succeeds if and only if the level is the top of the stack and above the running priority, so the mask check at line 211 never fires; pops it; an empty stack restores the mask of before the first activation |
| Ehf.Pe.Balanced | open_source/arm-trusted-firmware-2.7/bl31/ehf.c:99-218 | any run of activations and deactivations that empties the stack leaves the mask it found |
| Ehf.Pe.Reactivate | open_source/arm-trusted-firmware-2.7/bl31/ehf.c:206-209 | a level can be taken off and activated again if and only if it was the only active one and is above the running priority and the initial mask: otherwise the mask stays at the level taken off |
| Ehf.Pe.ReactivationPanics | open_source/arm-trusted-firmware-2.7/bl31/ehf.c:206-209 | with two active levels the stricter one cannot be activated again right after its deactivation |
| Ehf.Pe.ExitedNormalWorld | open_source/arm-trusted-firmware-2.7/bl31/ehf.c:231-261 | stashes the mask and blocks the normal world's interrupts, or does nothing at a secure priority or with active levels |
| Ehf.NormalKeptOut | open_source/arm-trusted-firmware-2.7/bl31/ehf.c:246-261 | while the secure world runs and has not allowed preemption no interrupt of the normal world is below the mask, whatever levels are active, and with none active every secure one is |
| Ehf.Pe.EnteringNormalWorld | open_source/arm-trusted-firmware-2.7/bl31/ehf.c:274-313 | never panics, so line 304 is never reached; restores the mask the excursion started with and clears the stash |
| Ehf.Pe.AllowNsPreemption | open_source/arm-trusted-firmware-2.7/bl31/ehf.c:326-359 | succeeds exactly with a stash and no active level, and then the mask is the normal world's |
| Ehf.Pe.Excursion | open_source/arm-trusted-firmware-2.7/bl31/ehf.c:231-359 | a secure excursion with any activations, deactivations and preemption allowed at most once returns with the original mask and no stash |
| Ehf.PushPop | open_source/arm-trusted-firmware-2.7/bl31/ehf.c:80-131 | setting a bit below all others, finding the lowest and clearing it are push, top and pop of the level stack |
| Ehf.BitsAreMembers | open_source/arm-trusted-firmware-2.7/bl31/ehf.c:32-131 | a bit of the bitmap is set exactly if its level is on the stack |
| Ehf.PopStrict | open_source/arm-trusted-firmware-2.7/bl31/ehf.c:193-209 | the level taken off is stricter than every level left, so the mask stays strict enough |
| Ehf.LevelOrder | open_source/arm-trusted-firmware-2.7/bl31/ehf.c:40-41 | index and priority conversions are inverse, and order levels as their priorities |
| Ehf.LowestBit | open_source/arm-trusted-firmware-2.7/bl31/ehf.c:80-87 | the lowest set bit of a word, found and cleared |
| Crc16.DalCalCrc | tools/coremsg/coremsg.c:97-117 | for every non-empty message the result is the bit-serial CRC from 0xFFFF; a null pointer or an empty message changes nothing |
| Crc16.EntryIsEight | tools/coremsg/coremsg.c:58-95 | all 256 entries of the two tables are eight bit-serial steps of the index |
| Crc16.RowsMatch | tools/coremsg/coremsg.c:58-95 | row by row, for both tables |
| Crc16.TableStep | tools/coremsg/coremsg.c:109-114 | one step with the tables is one byte fed bit by bit, most significant bit first |
| Crc16.FeedByteIsEight | tools/coremsg/coremsg.c:58 | feeding a byte is adding it on top and shifting eight times with the polynomial x^16+x^12+x^5+1 |
| Crc16.EightInjective | tools/coremsg/coremsg.c:97-117 | eight steps are a bijection on the 16-bit state |
| Crc16.SerialInjective | tools/coremsg/coremsg.c:97-117 | different states stay different under any message |
| Crc16.AdjacentBytesDetected | tools/coremsg/coremsg.c:97-117 | messages that differ in two adjacent bytes have different CRCs, whatever surrounds them |
| Crc16.BurstDetected | tools/coremsg/coremsg.c:97-117 | different messages of one length that agree outside two adjacent bytes have different CRCs |
| CircularList.RingInverse | platform/osal/include/osal_list.h:31-33 | next and prev undo each other at every node of a list |
| CircularList.InitListHead | platform/osal/include/osal_list.h:42-49 | the list is empty; a null pointer is ignored |
| CircularList.ListAdd | platform/osal/include/osal_list.h:78-81 | the entry becomes the first |
| CircularList.ListAddTail | platform/osal/include/osal_list.h:91-94 | the entry becomes the last |
| CircularList.DelEntry | platform/osal/include/osal_list.h:119-125 | the entry is gone from the list, which keeps its order |
| CircularList.ListDel | platform/osal/include/osal_list.h:130-138 | likewise, and the entry's links are the two poison addresses |
| CircularList.ListDelInit | platform/osal/include/osal_list.h:167-171 | likewise, and the entry is an empty list of its own |
| CircularList.ListReplace | platform/osal/include/osal_list.h:147-154 | the new node takes the place of the old one, be it an entry or the head of a list, an empty one included |
| CircularList.ListReplaceInit | platform/osal/include/osal_list.h:156-161 | likewise, and the old node is an empty list |
| CircularList.ListMove | platform/osal/include/osal_list.h:178-182 | the entry becomes the first of the same or of another list and leaves its own |
| CircularList.ListMoveTail | platform/osal/include/osal_list.h:189-194 | likewise at the end |
| CircularList.ListEmpty | platform/osal/include/osal_list.h:215-222 | 1 exactly for an empty list, -1 for a null pointer |
| CircularList.ListIsSingular | platform/osal/include/osal_list.h:267-270 | true exactly for one entry |
| CircularList.ListRotateLeft | platform/osal/include/osal_list.h:253-261 | the first entry becomes the last |
| CircularList.RotateAround | platform/osal/include/osal_list.h:253-261 | as many rotations as there are entries are the identity |
| CircularList.ListCutPosition | platform/osal/include/osal_list.h:298-309 | splits a non-empty list into the prefix through the entry and the rest; cutting at the head empties the other list; an empty list leaves both as they are |
| CircularList.Cut | platform/osal/include/osal_list.h:272-282 | prefix through the entry and rest |
| CircularList.SpliceBetween | platform/osal/include/osal_list.h:311-323 | all entries of one list go between two neighbours of another, in order |
| CircularList.ListSplice | platform/osal/include/osal_list.h:330-336 | in front of the others |
| CircularList.ListSpliceTail | platform/osal/include/osal_list.h:343-349 | behind the others |
| CircularList.ListSpliceInit | platform/osal/include/osal_list.h:358-365 | in front of the others, and the emptied list is empty |
| CircularList.ListSpliceTailInit | platform/osal/include/osal_list.h:375-382 | behind the others, and the emptied list is empty |
| CircularList.CutAndSplice | platform/osal/include/osal_list.h:298-365 | splicing what was cut off restores the list and empties the other |
| CircularList.Cat | platform/osal/include/osal_list.h:24-33 | two paths of nodes make one exactly if the end of the first and the start of the second are linked both ways |
| Handoff.Loader.GetNextBlParams | open_source/arm-trusted-firmware-2.7/common/desc_image_load.c:130-207 | returns a list if and only if a chain of hand-offs from the first image to run to INVALID_IMAGE_ID exists, through executable images at non-zero indices, whose nodes but the last are unlinked; the list is then exactly that chain, without repetition and no longer than the array |
| Handoff.Loader.LinkFrom | open_source/arm-trusted-firmware-2.7/common/desc_image_load.c:162-206 | the bounded loop links exactly the chain, and halts exactly when there is none to link |
| Handoff.Loader.GetBlParamsNodeIndex | open_source/arm-trusted-firmware-2.7/common/desc_image_load.c:53-64 | the least index of the image, or -1 |
| Handoff.ChainFits | open_source/arm-trusted-firmware-2.7/common/desc_image_load.c:162-204 | a chain to INVALID_IMAGE_ID has no cycle and at most as many entries as there are descriptors |
| Handoff.WalkIsPrefix | open_source/arm-trusted-firmware-2.7/common/desc_image_load.c:157-200 | every walk from the first image is the beginning of the chain, if there is one |
| Handoff.Together | open_source/arm-trusted-firmware-2.7/common/desc_image_load.c:192-200 | a walk that meets itself goes round for ever |
| Handoff.OneChain | open_source/arm-trusted-firmware-2.7/common/desc_image_load.c:157-206 | there is at most one chain |
| Handoff.Stops | open_source/arm-trusted-firmware-2.7/common/desc_image_load.c:166-204 | an image that is not executable, or a walk as long as the array, means that there is no chain |
| Handoff.LinkedBefore | open_source/arm-trusted-firmware-2.7/common/desc_image_load.c:181-187 | a node that is linked already on the way means that the chain had a linked node or does not exist |
| MetalIo.PhysToOffset | open_source/libmetal/lib/io.h:182-197 | ends whenever the region is a single page, does not fill the last page of the address space, or has the address at a visited offset, also when page_mask + 1 wraps to 0; returns the least visited offset that maps to the address, or METAL_BAD_OFFSET if none does |
| MetalIo.Search | open_source/libmetal/lib/io.h:182-197 | with page-aligned frames or a single page: the least offset of all that maps to the address, and METAL_BAD_OFFSET if and only if none does |
| MetalIo.NeverEnds | open_source/libmetal/lib/io.h:187-192 | in every other case each visit finds an offset inside the region that does not map to the address, so the loop does not end |
| MetalIo.EndlessSearch | open_source/libmetal/lib/io.h:187-192 | such a region: one byte less than the address space, pages of 4096 bytes and no table |
| MetalIo.ThereAndBack | open_source/libmetal/lib/io.h:161-197 | phys_to_offset undoes phys when no two offsets share an address |
| MetalIo.DistinctFrames | open_source/libmetal/lib/io.h:161-171 | distinct aligned frames, or a single page, give every offset an address of its own |
| MetalIo.UnalignedIsMissed | open_source/libmetal/lib/io.h:186-192 | a page whose frame is not aligned is never found at its first offset |
| MetalIo.MapsInStep | open_source/libmetal/lib/io.h:186-192 | with aligned frames every offset that maps to an address is one of those visited |
| MetalIo.StaysBelow | open_source/libmetal/lib/io.h:187-192 | where the search ends the offset does not wrap |
| MetalIo.VirtInverse | open_source/libmetal/lib/io.h:132-151 | virt and virt_to_offset undo each other, and METAL_BAD_OFFSET means that the address is not of the region |
| MetalIo.VirtIs | open_source/libmetal/lib/io.h:132-137 | virt plus the offset inside the region; the null pointer at and behind the size and for a region at METAL_BAD_VA; what is not null is an address of the region |
| MetalIo.PhysOfPlace | open_source/libmetal/lib/io.h:161-171 | a place of a page is at the same place of the frame of that page |
| MetalIo.PhysElsewhere | open_source/libmetal/lib/io.h:161-171 | METAL_BAD_PHYS at and behind the size or without a table; with a single page the offset is added to the one frame |
| MetalIo.Init | open_source/libmetal/lib/io.c:12-33 | mask and shift go together, shifts of 64 and more included, and the table has a frame for every page |

## Left out

- Dlopen.Linker.AppendTls: leaves the new offset and alignment open, because `TlsLayout` proves what they are; only their restoration matters to the transaction.
- Dlopen.Linker.Dlopen: which libraries stay unresolved is a parameter there; `LazyCalls.CallIsTrail` says which they are. The installation of TLS that follows is `TlsInstall`'s part.
- LazyChain.Linker.RedoLazyRelocs: the buffers and memory of a retry over a chain that ends; on a loop `Dlopen.Linker.RedoLazyRelocs` has the links, and the second visit of a library changes no memory by `LazyReloc.RetryAgain`.
- LazyRun.RunIsTransparent: calls of dlopen that are rolled back are not steps of its runs, nor is a library that is prepared twice.
- Dlopen.Linker.LoadLibrary: libraries are told apart by their file; short names, path search, symbolic links and the redirection of a second libc are not modelled.
- SymbolLookup.FindSym: the scope is given as a sequence of DSOs; following syms_next or the dependency array is `Dlopen`'s and `CtorQueue`'s part.
- LazyReloc.DoRelocs: relocation at run time only, of the symbolic, GOT, PLT, relative and offset types; the startup pass, TLS, COPY, OFFSET32 and function-descriptor types and the saved addends of ldso are left out.
- TlsInstall.InstallNewTls: DTVs are sequences and the copying of image bytes into blocks is left out; where the blocks lie is proved.
- Handoff.Loader.GetNextBlParams: the list head is null before the call, as at boot; a second call on a stale head is not modelled.
- Mapping, path search and ELF headers in the linker: system calls.
- Out-of-memory paths of extend_bfs_deps and queue_ctors, the built-in constructor queue and the fork check: a jump out of there leaves marks set.
- FDPIC, MIPS GOT relocations and architecture-specific TLS descriptors: more cases, not harder ones.
- Concurrent or repeated calls of __libc_exit_fini, and calls of the linker from finalisers.
- Cache maintenance, register contexts, SMC argument passing and authentication itself in BL1 and BL31.
- ehf_el3_interrupt_handler, ehf_is_ns_preemption_allowed and handler registration: dispatch only.
- populate_next_bl_params_config and the load-info list of the boot loader: straight-line filling of records.
- ioctl traffic of coremsg, the hlist half of the OSAL list, list iteration macros, and block transfers and IRQ handling of libmetal.
- The mcs driver, the emmc tool, the OSAL wrappers and the documentation generators: input and output without a property of this depth.
