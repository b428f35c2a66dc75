# DemoOS, verified models

DemoOS is a small teaching kernel with a user-level file server. This project
models its protocols and data structures in Dafny and proves what they are for.
`dafny verify dfyconfig.toml` checks everything.

Code that changes state step by step is a class whose methods are proved against
a specification function; the properties are lemmas about that function, or about
a state machine whose steps are single system calls or single shared accesses.

| file | what it models | main results |
|---|---|---|
| `address_space.dfy`, `cow_fork.dfy`, `fork_runs.dfy`, `fork.dfy`, `fork_steps.dfy` | page mappings; copy-on-write fork, fault handler and stores as interleaved steps; the code of `fork`, `duppage`, `pgfault` | `ForkIsIsolation`, `ForkCompletes`, `HalfNeverFaults`, `Fork` |
| `pipe_closed.dfy` | descriptor and pipe reference counts under dup, close, exit, fork and the closed test | `ClosedMeansClosed`, `StaysOpen`, `DupOpens`, `PipeRefsBound` |
| `pipe_fifo.dfy` | the lock-free ring, one reader and one writer, 32-bit positions | `PipeIsFifo`, `CallsAreFair`, `FullTestIsRight` |
| `fs_volume.dfy`, `fs_growth.dfy`, `fs_alloc.dfy`, `fs_server.dfy` | block map, ownership, truncation, directory growth, when blocks can be had; the server's code over its bitmap | `MapBlockExact`, `MapSucceeds`, `GrowDirExact`, `TruncateExact` |
| `fs_cache.dfy` | the server's write-back block cache | `CacheIsTransparent`, `FileFlush` |
| `fs_path.dfy`, `fs_names.dfy`, `fs_tree.dfy` | directories, path walk, names when a directory grows; the code of create, open, remove | `FileCreate`, `CreateOpens`, `WellFormedExact`, `RemoveCloses` |
| `lru_cache.dfy`, `fs_disk.dfy` | the image builder's 16-entry cache, and the builder's use of it | `CacheIsTransparent`, `GetWhen` |
| `fs_image.dfy`, `fs_format.dfy` | the on-disk image, the builder, and what the server finds when it mounts it | `FsFormat`, `FormatThenMount` |
| `ipc.dfy`, `fs_protocol.dfy`, `ipc_mailbox.dfy`, `open_table.dfy` | kernel IPC, request and reply, the second as a refinement of the first, file ids | `ExactlyOnce`, `RepliesMatchRequests`, `KernelReplies`, `StaleIdsRejected` |
| `env_table.dfy`, `sched.dfy`, `upcall.dfy` | free list and environment ids, scheduler, page-fault upcalls | `IdResolves`, `RoundRobinIsFair`, `UpcallRestores` |
| `arg_stack.dfy`, `tokenizer.dfy` | the argument page of `spawn`, the shell's tokenizer | `InitStack`, `GetToken` |

## What the code does differently from what it promises

* `duppage` makes its second mapping from the child back to the parent
  (user/fork.c:80). It is right only while both name one page (`NextRefines`,
  `LostHalf`). What makes it right is the order of the pushes: `duppage` stores to
  the page it is duplicating only if it has stored to it before the first mapping,
  so it cannot fault there in between (`HalfNeverFaults`).
* `fork` ignores failures to map library and read-only pages (user/fork.c:71, 86).
  Without interference this does no harm: once a page table cannot be had, fork's
  own allocation at the end fails too (`Fork`). A `sys_mem_alloc` that finds no
  page table loses the page it took (kern/syscall.c:175-187).
* `duppage` maps library pages with every bit set (user/fork.c:71), so the child may
  write a library page that the parent may only read (`RightsKept`).
* `file_truncate` frees the indirect block without clearing `f_indirect`
  (fs/fs.c:627-628), and panics if there was none. `TruncateExact` says exactly
  when each happens, `TruncateClears` when the clearing is complete,
  `TruncateCosts` what follows: a panic at the next use of the file's table, unless
  the block has been given to another file by then, which is worse.
  `TruncateRepaired` shows that clearing the pointer, as the comment at
  fs/fs.c:610-612 asks, is enough.
* The number of blocks of a file is computed in 32 bits (fs/fs.c:622-623) and is 0 for
  a size within 4095 bytes of 2^32. Truncating to such a size clears the whole file,
  and truncating from one frees nothing (`TruncateWraps`).
* A freed block stays mapped, and `map_block` does not clear a mapped block
  (fs/fs.c:61-63, 173-180). As a data block that does no harm. A new indirect block
  may hold old block numbers, and a new directory block old structures: ownership
  is lost exactly then (`MapBlockExact`, `GrowDirExact`, `AddFilesExact`), and the
  code does not look. `StaleIndirect` and `StaleDirectory` are concrete cases.
* The old structures in a new directory block also bring their names. A path that led
  nowhere may lead to a file, a name may be there twice, and the new file may be a
  directory (`OldNamesReturn`). `FileCreate` says exactly when the other paths are as
  they were (`LookupsExact`) and names stay unique (`WellFormedExact`). Paths that led
  to files are never harmed, and a block that was not mapped brings nothing
  (`UnmappedHarmless`).
* Clients store into file blocks through mappings of their own, which does not set
  the dirty bit the server looks at. `fs_sync` puts the flat array on the disk
  outside the blocks so changed and not reported with FSREQ_DIRTY
  (`BlockCache.CacheIsTransparent`).
* Pipe positions are 32-bit. `p_rpos + BY2PIPE` wraps once 2^32 - 32 bytes have
  been read, and from then on every pipe looks full (`FullTestIsRight`,
  `PipeWearsOut`). Nothing is corrupted: `PipeIsFifo` holds without a bound.
* A write that gives up on a closed pipe returns 0 even if some of its bytes went in
  (user/pipe.c:175; `CallsAreFair`).
* `page_lookup` returns page 0, not an error, for an empty entry of a page table
  that exists (kern/pmap.c:646-666). The model keeps this.
* `open_lookup` accepts the id of a slot that was never opened, because the count
  of its missing page is 0 and not 1 (fs/serv.c:68; `NeverOpenedAccepted`), and
  from 2^31 on an id looks like an error to `serve_open` (`IdLooksLikeError`).
* Destroying the current environment forgets the scan position
  (`RestartStarves`), so fairness is proved for runs in which that does not happen.
* The image builder leaves one buffer busy after a file whose length is a multiple
  of the block size (fs/fsformat.c:312-320) and exits at the next file. It also
  leaks the buffer of every full directory block (fs/fsformat.c:293-303). `FsFormat`
  says exactly when the builder finishes, and that 16 buffers are enough.
* `dup` of a descriptor onto itself closes it first (user/fd.c:130). The last
  `sys_mem_map` (user/fd.c:148) then finds an empty entry and maps physical page 0
  there, without access for user code: `fd_lookup` still calls the descriptor open,
  and the next `close`, or `close_all` on exit, faults on it. The counts of the pipe
  are those of a closed descriptor, which is what the model of pipes keeps.

## Model

| member | source | states |
|---|---|---|
| `CowFork.NextInv` | user/fork.c:15-142 | every system call of fork, duppage and the fault handler, every mapping of a library page elsewhere, and every store, keeps: a page mapped at two places is writable at neither unless both are library mappings, a scratch page is private, and each half-done fork or fault is consistent |
| `CowFork.StoreInv` | user/fork.c:57-90 | a store through a writable mapping keeps that invariant, with forks and faults half done anywhere |
| `CowFork.FaultCopyInv` | user/fork.c:35 | copying into the scratch page keeps it, whatever the other environments are doing |
| `CowFork.FaultMapInv` | user/fork.c:37-38 | mapping the scratch page over the faulting one keeps it |
| `CowFork.DupSharedInv` | user/fork.c:70-86 | duplicating a library or a read-only page keeps it |
| `CowFork.DupFirstInv` | user/fork.c:76-78 | the first mapping of a writable or copy-on-write page, parent to child, keeps it although the parent can still write |
| `CowFork.DupSecondInv` | user/fork.c:80-82 | the second mapping, child to parent, restores that neither can write |
| `CowFork.ShareInv` | kern/syscall.c:202-225 | mapping a library page at another address or in another environment, as dup, pipe and a message with a page do, keeps it, forks and faults half done anywhere |
| `CowFork.NextRefines` | user/fork.c:15-142 | one step acts as the same step on private copies of all non-library memory if and only if it is not the second half of a duplication whose halves have come to differ |
| `CowFork.LostHalf` | user/fork.c:80 | if the halves differ, the step back to the parent is not a step on private memory |
| `CowFork.DupSecondCell` | user/fork.c:80-82 | if they agree, every visible page of every environment is unchanged by the second half |
| `CowFork.NextPte` | user/fork.c:57-90 | a mapping of a forking parent or of its unborn child stays as it is under every step of anyone other than the two that map over it |
| `CowFork.NextWritable` | user/fork.c:57-90 | nothing but the second mapping takes from a forking parent the right to write a page, whatever the others do |
| `CowFork.HalfNeverFaults` | user/fork.c:74-82 | between the two mappings the parent takes no fault on the page being duplicated: the frames it pushes there were pushed before the first mapping and are still writable |
| `CowFork.NextInStep` | user/fork.c:57-90 | so every step keeps the two halves of each page one page |
| `CowFork.QuietInStep` | user/fork.c:99-142 | that holds wherever no fork is in progress |
| `CowFork.ForkIsIsolation` | user/fork.c:99-142 | over every interleaved run of forks, faults, stores, growth, sharing of library pages, unmapping and teardown, what environments see, and what they may read and write, perhaps after a fault, is what it would be with private memory and shared library pages |
| `CowFork.StoreIsPrivate` | user/fork.c:57-90 | a store changes what is visible at another address exactly if both are one shared library page, and then in the same byte |
| `CowFork.FaultRun` | user/fork.c:26-41 | an uninterrupted fault leaves a private writable page with the old contents and changes no other mapping and no other page |
| `ForkRuns.WriteRight` | user/fork.c:26 | a page may be written exactly if it can be stored to or the fault on it can be handled, while there is a page for the copy |
| `ForkRuns.FrameStays` | user/fork.c:74-82 | a page fork has stored to while scanning it may store to again between the two mappings of duppage |
| `ForkRuns.WriteWorks` | user/fork.c:26-41 | and then, the fault handled to the end without anybody seeing a difference, the store can be made |
| `ForkRuns.ProgramsMay` | kern/syscall.c:161-247 | outside fork and the fault handler a program can always unmap, take a free page and share a library page, and any program can end |
| `ForkRuns.DuppageRuns` | user/fork.c:57-90 | duppage of any user page can be carried out, and gives the child the page with the contents and rights of the parent's |
| `ForkRuns.ForkCompletes` | user/fork.c:99-142 | fork can be carried out from any state; afterwards the child is running and holds, page for page, what the parent holds, with the same rights but that every library page is writable, an empty exception stack and nothing else, and nobody else sees a difference |
| `ForkSteps.DuppageIsTwoSteps` | user/fork.c:74-83 | the code of duppage for a writable or copy-on-write page is the two steps, on the whole memory |
| `ForkSteps.DuppageIsOneStep` | user/fork.c:70-73 | and for a library or a read-only page the one step |
| `ForkSteps.PgfaultIsFourSteps` | user/fork.c:26-41 | the code of the page fault handler is its four steps, page tables included |
| `Fork.Machine.PageInsert` | kern/syscall.c:221-223 | maps the page and frees the one it replaces exactly if that was its last mapping; fails exactly if a page table is needed and no page is left, and then changes nothing |
| `Fork.Machine.SysMemAlloc` | kern/syscall.c:161-191 | which error it returns, in order, and exactly when none; then a zeroed page that was free is mapped; with a bad environment id or without a page table the page it took is lost |
| `Fork.Machine.SysMemMap` | kern/syscall.c:202-225 | the errors in order: an address above UTOP, a bad source or target environment, a source without a page table, no page for a page table; otherwise the page found at the source is mapped at the destination |
| `Fork.Machine.SysMemUnmap` | kern/syscall.c:233-247 | fails exactly for an address above UTOP or a bad environment id; otherwise the address is unmapped, its page freed exactly if that was the last mapping, and nothing else changes |
| `Fork.Machine.CopyPage` | user/fork.c:35 | the byte loop leaves the target page equal to the source page and every other page as it was |
| `Fork.Machine.Pgfault` | user/fork.c:15-48 | succeeds exactly on a write to a copy-on-write page while there is memory for the copy and the scratch page's table; the page is then private, writable, equal to the old one, the scratch page is unmapped and all else is unchanged; otherwise it panics |
| `Fork.Machine.Duppage` | user/fork.c:57-90 | if the child's page table exists or can be made, child and parent map the same page, copy-on-write on both sides if it could be written; if not, it panics exactly for a page that was to become copy-on-write, and changes nothing |
| `Fork.Machine.DupPages` | user/fork.c:117-126 | the loop, skipping absent page tables, duplicates every page below some page d, and d is the stack top unless memory ran out; it panics exactly if the free pages run out before the page table of some written page, and otherwise leaves enough for the exception stack exactly if there were enough for everything |
| `Fork.Machine.Fork` | user/fork.c:99-142 | fork succeeds exactly if there are free pages for the exception stack and for every page table the child needs, and panics exactly if they run out before the table of a page to become copy-on-write; if it succeeds, no mapping failed on the way although failures are ignored: the child maps what the parent maps below the stack top; each page that could be read or written can be on both sides, a written one after a copying fault; the child has its own zeroed writable exception stack and the page fault handler, and is runnable; otherwise it is not made runnable; in every case only the child can have lost a page, and no page's contents change |
| `Fork.Machine.SetUpcall` | kern/syscall.c:132-144 | the handler of that environment is registered, or nothing changes |
| `Fork.Machine.SetRunnable` | kern/syscall.c:291-304 | the environment becomes runnable, or nothing changes |
| `Fork.WalkOver` | user/fork.c:117-126 | skipping pages that are not mapped skips nothing that fork has to duplicate |
| `Fork.WalkedAll` | user/fork.c:117-128 | the walked pages and the exception stack together are the whole child |
| `Fork.ForkedRights` | user/fork.c:70-86 | the rights to every user page after fork: copy-on-write on both sides, read-only as before, or a library page that the child may write |
| `Fork.WalkedPages` | user/fork.c:117-126 | duplication never takes a page out of use |
| `PipeClosed.NextInv` | user/fd.c:97-158 | every unmap and map of dup, close and exit, every fork, and every load of the closed test keeps: a mapped descriptor has its pipe page mapped too, unless its owner is half way through closing or opening it in the safe order |
| `PipeClosed.CreatedInv` | user/pipe.c:28-67 | a new pipe satisfies it |
| `PipeClosed.DupOpens` | user/fd.c:121-151 | dup, from its call to its return, opens the same end under the new number, which it closes first, and changes nothing else |
| `PipeClosed.CloseCloses` | user/fd.c:97-109 | close takes exactly that descriptor out of both windows |
| `PipeClosed.CloseNothing` | user/fd.c:97-109 | close of a number that is not open does nothing |
| `PipeClosed.FailUndoes` | user/fd.c:153-157 | a dup that cannot make a mapping leaves the new number closed |
| `PipeClosed.ForkCopies` | user/fork.c:117-126 | the child of a fork holds exactly what the parent holds |
| `PipeClosed.DestroyDrops` | user/fd.c:111-118 | an environment that ends holds nothing any more, and nobody else loses anything |
| `PipeClosed.PipeRefsBound` | user/pipe.c:69-102 | refs(pipe page) >= refs(read end) + refs(write end), with equality exactly if no slot is half open |
| `PipeClosed.AnswerIsSound` | user/pipe.c:90-99 | an answer 1 means that at that moment no environment maps the other end, and with no dup or close half done the answer is 1 exactly then |
| `PipeClosed.TestAnswers` | user/pipe.c:69-102 | a test that runs to its end with nothing half done says closed exactly if nobody holds the other end |
| `PipeClosed.AnswerOrAgain` | user/pipe.c:90-99 | the test ends if its environment has not run again since it began, and loads the counts afresh otherwise; it changes nothing else |
| `PipeClosed.SwitchGives` | kern/env.c:332-335 | any environment can be run next, which counts one run and changes nothing else |
| `PipeClosed.RunInv` | user/pipe.c:69-203 | the invariant holds after any run of any number of environments |
| `PipeClosed.AppearsByCopy` | user/fd.c:121-158 | a descriptor mapping only ever appears as a copy of one of the same end |
| `PipeClosed.ClosedIsForever` | user/pipe.c:197-203 | an end nobody holds stays closed in every run |
| `PipeClosed.ClosedMeansClosed` | user/pipe.c:69-102 | from creation on and in every interleaving, a test that returns 1 says the other end is closed now and in all later states |
| `PipeClosed.StaysOpen` | user/pipe.c:69-102 | over every run, an end stays open while an environment that has it mapped neither closes it nor ends, and no test of the other end says closed |
| `PipeFifo.NextInv` | user/pipe.c:117-182 | every single shared access of reader and writer keeps the ring invariant |
| `PipeFifo.ReaderRing` | user/pipe.c:137-148 | a step of piperead takes exactly the oldest unread byte |
| `PipeFifo.WriterRing` | user/pipe.c:172-180 | a step of pipewrite overwrites no unread byte |
| `PipeFifo.RunInv` | user/pipe.c:117-182 | so does every run |
| `PipeFifo.PipeIsFifo` | user/pipe.c:117-182 | the bytes returned by all reads are a prefix of the bytes given to all writes, at most BY2PIPE behind, and the ring holds exactly those between, although positions are 32-bit |
| `PipeFifo.CallsAreFair` | user/pipe.c:117-182 | in every interleaving: a read returns all it was asked for, or less after finding every byte sent received, or nothing only after being told that the other end is closed; a write puts in all its data and returns its length, or was told so at a full pipe and returns 0 |
| `PipeFifo.ReadReturns` | user/pipe.c:137-148 | a read that finds bytes and is not interfered with returns the next of them, as many as were asked for or are there |
| `PipeFifo.ReadWaits` | user/pipe.c:138-145 | a read of an empty pipe returns nothing if told closed, and tests again if not |
| `PipeFifo.WriteReturns` | user/pipe.c:172-180 | a write for which there is room puts in all its bytes and returns their number |
| `PipeFifo.WriteWaits` | user/pipe.c:173-177 | a writer at a full pipe returns 0 if told closed, and tests again if not |
| `PipeFifo.FullTestIsRight` | user/pipe.c:138-173 | the full test is right exactly below 2^32 - 32 bytes read and says full for ever after; the empty test is always right |
| `PipeFifo.PipeWearsOut` | user/pipe.c:173 | from there on no run puts another byte in |
| `Volume.AllocNames` | fs/fs.c:185-219 | alloc_block hands out a free block that no file names, keeps ownership, and on failure changes nothing |
| `BlockSupply.AllocExact` | fs/fs.c:185-219 | alloc_block takes the lowest free block exactly if there is one that is in memory or there is a page for it, zeroes it exactly if it was not in memory, and otherwise fails with the code's error and changes nothing |
| `BlockSupply.AllocOnly` | fs/fs.c:185-219 | that determines result and volume |
| `BlockSupply.ReadExact` | fs/fs.c:78-114 | read_block panics exactly on a free or absent block, and succeeds otherwise exactly if it is in memory or there is a page for it |
| `Volume.WalkKeeps` | fs/fs.c:323-349 | file_block_walk changes no map entry, takes at most the new indirect block, fails with the code's errors, and keeps ownership on every outcome unless that block is a stale one |
| `Volume.MapBlockKeeps` | fs/fs.c:353-370 | file_map_block keeps ownership on success and on every error, changes only the entry asked for, and takes exactly the blocks it names, unless it takes a stale block to be an indirect block |
| `Volume.MapBlockNoLeak` | fs/fs.c:353-370 | it loses no block, even when the disk fills after the indirect block was taken, with the same exception |
| `Volume.StaleBreaks` | fs/fs.c:58-64 | a stale indirect block always breaks ownership: what it names is free, no data block, or named already |
| `Volume.MapBlockExact` | fs/fs.c:353-370 | with no block lost, ownership survives file_map_block if and only if it does not take, as a new indirect block, a block that is still mapped with a nonzero word in the table |
| `BlockSupply.MapSucceeds` | fs/fs.c:323-370 | file_map_block succeeds exactly if the pointer can be reached and names a block, or a block can be taken for it, one after the one taken for a new indirect block |
| `Volume.ClearBlockKeeps` | fs/fs.c:373-386 | file_clear_block frees exactly the named block and changes only that entry |
| `Volume.ClearBlockNoLeak` | fs/fs.c:373-386 | and loses no block |
| `Volume.ClearFromExact` | fs/fs.c:624-625 | the clearing loop zeroes exactly the entries in its range and frees exactly their blocks |
| `Volume.TruncateExact` | fs/fs.c:615-630 | the exact result of file_truncate: when it panics, the map, the free set, how far the loop gets without memory, and that ownership survives if and only if NDIRECT is not crossed |
| `Volume.TruncateClears` | fs/fs.c:624-626 | everything beyond the new length is cleared if and only if the indirect block can be brought into memory or has nothing there: errors of file_clear_block are ignored |
| `Volume.TruncateCount` | fs/fs.c:615-630 | the free count grows by the number of nonzero entries removed, plus one for the indirect block when NDIRECT is crossed |
| `Volume.TruncateBytes` | fs/fs.c:622-625 | every block that holds a byte below both sizes is kept, and nothing is left between the new size and the old one if the indirect block can be reached |
| `Volume.CountMeans` | fs/fs.c:622-623 | the blocks counted are those that hold a byte below the size; within 4095 bytes of 2^32 none are |
| `Volume.TruncateWraps` | fs/fs.c:622-625 | so a new size above that bound clears every block, and from an old one none |
| `Volume.TruncateRepaired` | fs/fs.c:610-628 | clearing f_indirect as well restores ownership and loses no block exactly if the table is empty from where the loop stopped |
| `Volume.TruncateDangles` | fs/fs.c:627-628 | after a truncation across NDIRECT the file names a free block and all else is owned as before |
| `Volume.UsedKeepsDangling` | fs/fs.c:353-386 | allocating and clearing blocks of other files keeps, stale indirect blocks apart: the old indirect block is free, or another file has been given it |
| `Volume.TruncateCosts` | fs/fs.c:627-628 | after such a truncation and any use of other files that takes no stale indirect block, the next use of the file beyond its direct blocks panics if and only if the old indirect block is still free; otherwise another file owns it too, and an allocation writes into it |
| `DirGrowth.GrowDirKeeps` | fs/fs.c:484-490 | growing a directory keeps ownership whether or not it succeeds, unless it takes a stale block; the new structures, decoded from the block, then name no blocks, and no other file's blocks are touched |
| `DirGrowth.GrowDirExact` | fs/fs.c:484-490 | with no block lost, ownership survives if and only if neither the new indirect block is stale nor the directory's own block comes with a block number in one of its sixteen structures |
| `BlockSupply.GrowSucceeds` | fs/fs.c:484-490 | a directory grows exactly if its next block can be had |
| `DirGrowth.AddFilesExact` | fs/fs.c:486-489 | taking a block for File structures keeps ownership of a volume with no block lost if and only if all sixteen have no block numbers; names and sizes do not matter to ownership |
| `DirGrowth.PointerBreaks` | fs/fs.c:486-489 | one structure with a block number always breaks it |
| `DirGrowth.StaleDirectory` | fs/fs.c:484-490 | a concrete volume in which the directory's own block is stale, although the block before it is clean, and a new structure names another file's block |
| `DirGrowth.StaleIndirect` | fs/fs.c:58-64 | a concrete volume in which a stale indirect block gives one file another file's block |
| `FileServer.PutBitFrees` | fs/fs.c:173-201 | writing one bit of one bitmap word changes exactly one block's state |
| `FileServer.Server.BlockIsFree` | fs/fs.c:162-170 | true exactly for blocks of the free set |
| `FileServer.Server.FreeBlock` | fs/fs.c:173-180 | adds exactly that block to the free set |
| `FileServer.Server.AllocBlockNum` | fs/fs.c:185-201 | takes the lowest free block from 2 on, or reports a full disk and changes nothing |
| `FileServer.Server.AllocBlock` | fs/fs.c:205-219 | the code takes the lowest free block exactly when one can be had, zeroed exactly if it was not in memory, and gives it back when it cannot be mapped |
| `FileServer.Server.ReadBlock` | fs/fs.c:78-114 | panics exactly on a free or absent block; otherwise the block is in memory exactly if it was or there is a page for it |
| `FileServer.Server.FileBlockWalk` | fs/fs.c:323-349 | the code is the specified walk |
| `FileServer.Server.FileMapBlock` | fs/fs.c:353-370 | the code is the specified mapping; it succeeds exactly if a block can be found or had; it keeps ownership unless it takes a stale indirect block, and with no block lost exactly then |
| `FileServer.Server.FileClearBlock` | fs/fs.c:373-386 | the code is the specified clearing, in or out of ownership |
| `FileServer.Server.FileTruncate` | fs/fs.c:615-630 | the loop over the bitmap is the specified truncation, panics included, on any volume whose pointers lie on the disk |
| `FileServer.OwnedInRange` | fs/fs.c:173-180 | on an owned volume every file's pointers lie on the disk |
| `BlockCache.WrittenKeeps` | fs/fs.c:119-142 | write_block changes no block's contents, and leaves the block clean and on disk |
| `BlockCache.SyncFromKeeps` | fs/fs.c:688-696 | after fs_sync nothing is dirty, every other mapped block equals the disk, and the blocks not reported stay as they are |
| `BlockCache.NextKeeps` | fs/fs.c:58-158 | every cache operation, and every store by server or client, keeps: a mapped clean block that is neither blank nor changed behind the server's back equals the disk; and acts as the operation on a flat array |
| `BlockCache.OpsMean` | fs/fs.c:58-158 | which operations can be done when, and what each does to the block: load, zero-map, store by server or client, mark, write back, evict |
| `BlockCache.CacheIsTransparent` | fs/fs.c:58-158 | over any run the cache is invisible, and a final sync puts the flat array on the disk outside the blank blocks and those clients changed and did not report |
| `BlockCache.Blocks.ReadBlock` | fs/fs.c:78-114 | loads the block if it is not mapped, which leaves it dirty; no contents change |
| `BlockCache.Blocks.FileDirty` | fs/fs.c:424-434 | loads the block and marks it, so that the next sync writes what clients have stored; no contents change |
| `BlockCache.Blocks.MapBlock` | fs/fs.c:58-64 | zero-maps an unmapped block, skips a mapped one |
| `BlockCache.Blocks.WriteBlock` | fs/fs.c:119-142 | writes the page out and cleans it; no contents change |
| `BlockCache.Blocks.FsSync` | fs/fs.c:688-696 | the loop is the specified sync |
| `BlockCache.Blocks.FileFlush` | fs/fs.c:668-685 | every mapped block before the file's first hole ends clean, on disk unless blank or changed behind the server's back; other blocks keep their state, and no contents change |
| `Paths.WordComponent` | fs/fs.c:529-536 | the characters up to the next slash are the first component of a path |
| `Paths.LookupSpec` | fs/fs.c:437-461 | dir_lookup finds an entry of that name in the directory, misses only if there is none, and fails only at an unreadable block |
| `Paths.NamingKeeps` | fs/fs.c:580-602 | naming an unused entry keeps names unique and changes the lookup of no other name |
| `Paths.ClearingKeeps` | fs/fs.c:708-724 | clearing a structure keeps names unique |
| `Paths.LookupCleared` | fs/fs.c:708-724 | after it a lookup hits exactly where it did before, but for that structure and in it |
| `Paths.FoldNamed` | fs/fs.c:508-561 | after an unused entry is named, a walk that missed that name goes on in the new file, and every other walk ends with the same file or the same error |
| `Paths.FoldCleared` | fs/fs.c:708-724 | clearing any file or directory cuts off exactly the walks that come through it |
| `Paths.RegularEnds` | fs/fs.c:508-561 | a regular file is the end of every walk that comes through it |
| `Paths.FoldRemoved` | fs/fs.c:708-724 | a removed regular file is missing from its directory where that can be read |
| `Paths.CreateOpens` | fs/fs.c:565-602 | if nothing has stopped being found, the path that was missing leads to the new file and every path to a file leads there still; the other paths are as they were, those that missed the name going on in the new file, if and only if no other name a path can have has appeared |
| `Paths.NewName` | fs/fs.c:508-561 | a name that has appeared besides is found by a path that led nowhere before |
| `Paths.NewFileEnds` | fs/fs.c:484-490 | the new file is the end of every path through it if and only if its structure did not come as a directory in which something is found |
| `Paths.RemoveCloses` | fs/fs.c:708-724 | after a remove, of a file, a directory or the root, exactly the paths that came through it lead nowhere, and all others where they led |
| `DirNames.GrownLookup` | fs/fs.c:484-490 | after a directory has grown by a block, whatever it holds, all lookups are as before but those that missed in that directory, which find what is in the block |
| `DirNames.LookupsExact` | fs/fs.c:484-490 | once the first structure of the block is named, all other lookups are as before if and only if each name in structures 1 to 15 is empty, the new name, or found in the directory already |
| `DirNames.NamesExact` | fs/fs.c:484-490 | names in the directory stay unique if and only if the nonempty names in the block differ from each other and from all that are found there |
| `DirNames.WellFormedExact` | fs/fs.c:484-490 | the whole store stays well formed if and only if that holds and what the structures list, if they come as directories, is in no other directory |
| `DirNames.GrowthCreates` | fs/fs.c:580-602 | a file created in a directory that grows: its path opens it, every path that led to a file leads there still, and exactly when the other paths, the other lookups and the uniqueness of names survive |
| `DirNames.NoGrowth` | fs/fs.c:484-490 | a block that cannot be had turns the lookups that missed in the directory into errors, changes no other, and keeps the store well formed |
| `DirNames.WordsExact` | fs/fs.c:476-490 | the conditions are conditions on the words of the block: the names at bytes 256, 512, ... of it |
| `DirNames.CStringMeans` | fs/fs.c:476-490 | the name read from the words of a block ends at the first zero byte or the end of the block, and is the bytes before it |
| `DirNames.UnmappedHarmless` | fs/fs.c:58-64 | a block that was not mapped is cleared when it is taken, and then all conditions hold |
| `DirNames.OldNamesReturn` | fs/fs.c:484-490 | a concrete full root and an old block: creating /new makes /old, which led nowhere, lead to a file, gives two files one name, and makes a directory |
| `FileTree.Tree.FindInDir` | fs/fs.c:437-461 | the two loops are the specified lookup |
| `FileTree.Tree.SkipSlash` | fs/fs.c:494-500 | skipping slashes changes no component |
| `FileTree.Tree.NextWord` | fs/fs.c:529-536 | cuts off exactly the first component |
| `FileTree.Tree.WalkPath` | fs/fs.c:508-561 | walk_path is the fold of dir_lookup over the nonempty components, errors included |
| `FileTree.Tree.DirAllocFile` | fs/fs.c:464-491 | the first unused entry, or the first of a new block, which holds whatever the block held |
| `FileTree.Tree.FileCreate` | fs/fs.c:580-602 | when it succeeds and with which error it fails; the whole new directory tree; the path then opens the new file and paths to files lead where they led; exactly when all other paths are as they were and names stay unique |
| `FileTree.Tree.FileOpen` | fs/fs.c:565-576 | succeeds exactly if the walk finds a file, and returns it |
| `FileTree.Tree.FileRemove` | fs/fs.c:708-724 | succeeds exactly if the path leads to something, which is then cleared; where names are unique, exactly the paths through it are cut off, its own included |
| `LruCache.Victim` | fs/fsformat.c:183-192 | the entry chosen is not busy and least recently used among those that are not, and none is chosen only if all are busy |
| `LruCache.GetTakes` | fs/fsformat.c:171-222 | getblk takes the block's own entry if there is one, and otherwise writes back and reuses the one not busy that was taken longest ago; it is then the one taken last, and no other entry changes |
| `LruCache.GetInv` | fs/fsformat.c:171-222 | getblk keeps every nonzero block in at most one entry and returns an entry nobody held |
| `LruCache.GetShows` | fs/fsformat.c:171-222 | hit or miss, the image the cache shows changes at most by clearing the block asked for |
| `LruCache.BusyCount` | fs/fsformat.c:171-222 | busy buffers are as many as busy blocks |
| `LruCache.GetWhen` | fs/fsformat.c:171-222 | getblk does not exit if and only if the block is on the disk, its buffer is not busy and some buffer is not |
| `LruCache.FlushOneShows` | fs/fsformat.c:119-169 | flushb changes the disk copy of one block and nothing the cache shows |
| `LruCache.EditShows` | fs/fsformat.c:171-228 | an edit of a buffer is an edit of that block of the flat image |
| `LruCache.FlushFromShows` | fs/fsformat.c:370-378 | flushdisk puts the image shown on the disk |
| `LruCache.CacheIsTransparent` | fs/fsformat.c:119-378 | any sequence of getblk, edits and putblk, then flushdisk, leaves on the disk what the same edits of a flat array would |
| `LruCache.Buffers.Scan` | fs/fsformat.c:183-191 | the one loop finds the block's entry, or the victim |
| `LruCache.Buffers.Getblk` | fs/fsformat.c:171-222 | takes the block's entry or replaces the victim, and exits exactly where the original does |
| `LruCache.Buffers.Flushb` | fs/fsformat.c:119-169 | writes the buffer to its block and nothing else |
| `LruCache.Buffers.Putblk` | fs/fsformat.c:224-228 | only clears the busy flag |
| `LruCache.Buffers.Flushdisk` | fs/fsformat.c:370-378 | the loop is the specified flush |
| `BuilderDisk.GetTied` | fs/fsformat.c:171-222 | over the flat image and the set of busy blocks: when getblk exits, and what it shows and holds otherwise |
| `BuilderDisk.Disk.Get` | fs/fsformat.c:171-222 | the same of the builder's calls; the buffer got is busy from then on |
| `BuilderDisk.Disk.Fill` | fs/fsformat.c:313-341 | a store into a busy buffer is a store into that block of the image |
| `BuilderDisk.Disk.Release` | fs/fsformat.c:224-228 | frees exactly that buffer and changes nothing in the image |
| `BuilderDisk.Disk.Flush` | fs/fsformat.c:370-378 | afterwards the disk is the image, block 0 excepted |
| `FsImage.RoundSound` | fs/fsformat.c:311-337 | one round of the copying loop names exactly the new data block and, the first time past NDIRECT, the new indirect block, and keeps ownership with no block lost |
| `FsImage.RoundBlocks` | fs/fsformat.c:311-337 | after it one more block of the file holds the next 4096 bytes, zero padded, and earlier ones still theirs |
| `FsImage.PutChunkKeeps` | fs/fsformat.c:311-337 | together: the file is written up to the next block and nothing older is touched |
| `FsImage.GrowBuilt` | fs/fsformat.c:302-306 | a new directory block keeps all files as they were built |
| `FsImage.FinishBuilt` | fs/fsformat.c:341-342 | storing the finished entry adds exactly that file to those the image holds |
| `FsImage.FilesStay` | fs/fsformat.c:272-343 | files already built are not changed by building another |
| `Format.CompletesPrefix` | fs/fsformat.c:387-397 | if the builder can finish with all inputs it can finish with any first few of them |
| `Format.OthersStay` | fs/fsformat.c:345-368 | writing bitmap, super-block or free blocks changes no file |
| `Format.Builder.OpenDisk` | fs/fsformat.c:230-270 | succeeds exactly for a disk of 12 KB to 4 MB, and leaves a well-built image with no files and every bitmap bit set |
| `Format.Builder.LookLast` | fs/fsformat.c:293-301 | finds the structure right after the files if the last directory block has one; either way the block's buffer stays busy |
| `Format.Builder.Unused` | fs/fsformat.c:296-300 | the scan of a directory block |
| `Format.Builder.FindPlace` | fs/fsformat.c:293-308 | where the next structure goes, exactly when it exits, and exactly when a file too many stores past the end of f_direct |
| `Format.RootHeld` | fs/fsformat.c:293-303 | how many buffers are busy, and that the next block's is exactly if the last input left it so |
| `Format.Builder.GrowRoot` | fs/fsformat.c:302-306 | a new directory block, or an exit exactly if the disk is full or the next block's buffer is busy; the full block's buffer is leaked |
| `Format.Builder.PlaceBlock` | fs/fsformat.c:321-337 | the block number goes into the structure or the indirect block; exactly when it exits |
| `Format.Builder.CopyData` | fs/fsformat.c:310-341 | finishes exactly if the blocks fit; then block i of the file holds its bytes from 4096i on, zero padded, and an input that fills its last block leaves one more buffer busy |
| `Format.Builder.FillPlace` | fs/fsformat.c:308-343 | the file is written into its slot, or the program exits, exactly when |
| `Format.BaseIs` | fs/fsformat.c:287-291 | the name a file gets is what follows the last slash of its path, or all of it |
| `Format.Builder.WriteFile` | fs/fsformat.c:272-343 | how it ends, for any path and data: done exactly if the file fits, the one before left no buffer busy, and number and name are within bounds; then the image holds the earlier files and this one; past the end of f_direct or f_name exactly if there is a place and number or name is out of bounds |
| `Format.Builder.WriteFiles` | fs/fsformat.c:396-397 | the same of the loop over all inputs |
| `Format.Builder.FinishFs` | fs/fsformat.c:345-368 | leaves a bitmap set exactly for nextb <= b < nblock and the super-block, and all files as they were |
| `Format.FsFormat` | fs/fsformat.c:387-400 | the program finishes if and only if the disk has a good size, the inputs are within bounds, the files fit and none but the last fills its blocks to the end; no more than 12 of the 16 buffers are ever busy, and after flushdisk the disk itself holds the complete image |
| `Format.FormattedDisk` | fs/fsformat.c:370-378 | mounting needs only what flushdisk has written |
| `Format.MountGood` | fs/fs.c:222-275 | of any disk the server accepts: a good super-block, a volume no larger than disk and window, nothing mapped, and only blocks from 2 on and within the volume free, those whose bit is set |
| `Format.MountVolume` | fs/fs.c:222-275 | the server mounts such an image, finds exactly the blocks from nextb on free, every block named at most once and none lost |
| `Format.SlotsRead` | fs/fs.c:437-461 | the directory blocks the server reads through the root's pointers are the builder's entries in order |
| `Format.NameFound` | fs/fs.c:437-461 | dir_lookup in the mounted root finds each file by its name and misses every other name |
| `Format.BytesRead` | fs/fsformat.c:310-341 | reading a file block after block gives its bytes |
| `Format.MapFinds` | fs/fs.c:353-370 | file_map_block returns the block that the builder stored, and allocates nothing |
| `Format.FormatThenMount` | fs/fs.c:508-561 | round trip, of the disk the program leaves: after mount every file is found by its path, a regular file with its exact size and bytes, block i at 4096i with zero padding, no other name is found, the bitmap is exact, and ownership holds with no block lost |
| `Ipc.KernelState.SysIpcRecv` | kern/syscall.c:60-73 | marks the caller receiving and not runnable, and changes nothing else |
| `Ipc.KernelState.SysIpcCanSend` | kern/syscall.c:90-125 | each error with its exact condition; otherwise the receiver gets sender, value and permission and becomes runnable, and maps the sender's page with that permission if both sides name one; a failed send changes nothing |
| `Ipc.NextInv` | kern/syscall.c:60-125 | every step keeps that each environment has at most one message it has not read, and is off the run queue exactly while receiving |
| `Ipc.ExactlyOnce` | user/ipc.c:10-39 | over all runs every environment receives exactly the messages successfully sent to it, once, in order, with sender, value, permission and page |
| `Ipc.SecondSenderRefused` | kern/syscall.c:98-99 | until the next receive every other send is refused and changes nothing |
| `FsProtocol.NextInv` | user/fsipc.c:15-27 | every step of clients and server keeps the protocol's invariant |
| `FsProtocol.ServeClient` | fs/serv.c:274-320 | serving one request leaves every client's conversation consistent |
| `FsProtocol.MailClient` | user/ipc.c:10-39 | so does every delivery of a request or a reply |
| `FsProtocol.RunInv` | fs/serv.c:274-320 | so does every run |
| `FsProtocol.RepliesMatchRequests` | user/fsipc.c:15-27 | each client's k-th reply is the server's result for its k-th request, the server's results are those of handling the requests one after the other, and a client has at most one request open |
| `FsProtocol.RequestRuns` | user/fsipc.c:15-27 | a request, sent, served, answered and collected with nobody in between: the schedule exists, the client gets the result of its own code and argument, and everybody is ready for the next |
| `FsProtocol.CollectsFromServer` | user/fsipc.c:24-25 | the reply a client takes always comes from the server, so the assertion on the sender holds |
| `FsProtocol.ArgumentStands` | fs/serv.c:274-320 | while a request is served its argument page and code are those the client asked with |
| `IpcMailbox.RecvOpens` | kern/syscall.c:60-73 | sys_ipc_recv opens the caller's mailbox and no other |
| `IpcMailbox.GoodSendMeans` | kern/syscall.c:90-125 | when a send counts as good: the target exists, and if it is receiving and both sides name a page, the page is mappable and there is room |
| `IpcMailbox.TakenMeans` | user/fsipc.c:15-27 | which kernel call each step of the protocol is: only filling the page and serving are none, and only the two sends have arguments that can be refused |
| `IpcMailbox.SendFills` | kern/syscall.c:90-125 | sys_ipc_can_send fills an open mailbox, sharing the sender's page, and otherwise is refused and changes nothing |
| `IpcMailbox.ReadCloses` | user/ipc.c:28-39 | ipc_recv returns the message and closes the mailbox |
| `IpcMailbox.StepRefines` | user/fsipc.c:15-27 | every step of the protocol is a step the kernel can take, and the mailboxes keep agreeing |
| `IpcMailbox.RunRefines` | kern/syscall.c:60-125 | any schedule of the protocol, between steps of any other environments that send to neither clients nor server, is a run of the kernel, and mailboxes and messages received agree at its end |
| `IpcMailbox.KernelReplies` | user/fsipc.c:15-27 | on the kernel: the k-th message ipc_recv has returned to a client is from the server, and its value is the result for the client's k-th request, the requests handled one after the other; at most one request is open |
| `OpenTable.SlotOfId` | fs/serv.c:67 | an id modulo MAXOPEN is its slot, also after 32-bit wrap-around |
| `OpenTable.IdsRepeat` | fs/serv.c:47-57 | ids of one slot differ for 2^22 generations |
| `OpenTable.IdLooksLikeError` | fs/serv.c:97-100 | the id is negative as an int, and so taken for an error, exactly in the second half of every 2^22 generations |
| `OpenTable.Table.OpenAlloc` | fs/serv.c:41-60 | takes the first slot no client maps, moves it to a new id, and on failure changes nothing; fails exactly if every slot is mapped, or if the first free one needs a page and there is none; exactly when the int it returns is negative |
| `OpenTable.Table.OpenLookup` | fs/serv.c:62-72 | accepts an id exactly if it is its slot's current one and the page count is not 1 |
| `OpenTable.Table.StaleIdsRejected` | fs/serv.c:62-72 | the id of a generation is accepted exactly while it is the current one and a client maps its page |
| `OpenTable.Table.NeverOpenedAccepted` | fs/serv.c:68 | the id of generation 0 is accepted exactly for a slot never opened |
| `EnvTable.UnlinkedSpells` | inc/queue.h:91-97 | unlinking an element leaves the list without it, every back link right |
| `EnvTable.LinkedSpells` | inc/queue.h:67-87 | linking an element in gives the list with it at that place, every back link right |
| `EnvTable.List.Init` | inc/queue.h:63-65 | the empty list |
| `EnvTable.List.InsertHead` | inc/queue.h:82-87 | refines insertion at the front of a sequence |
| `EnvTable.List.InsertAfter` | inc/queue.h:67-73 | refines insertion after an element |
| `EnvTable.List.InsertBefore` | inc/queue.h:75-80 | refines insertion before an element, through the back link alone |
| `EnvTable.List.Remove` | inc/queue.h:91-97 | refines removal of an element |
| `EnvTable.EnvidSlot` | kern/env.c:20-28 | ENVX of an id is its slot, and when the id is positive as an int |
| `EnvTable.EnvidDistinct` | kern/env.c:20-28 | the first 2^20 - 1 ids are distinct |
| `EnvTable.Envs.constructor` | kern/env.c:69-82 | all slots free, slot 0 first, none twice |
| `EnvTable.SlotsAfterAlloc` | kern/env.c:134-182 | the rest of the list holds the free slots, and no other environment ends |
| `EnvTable.Envs.EnvAlloc` | kern/env.c:134-182 | takes the head of the free list, gives it a new id and sets every field env_alloc sets; a failed call leaves list and table unchanged |
| `EnvTable.Envs.FreePages` | kern/env.c:257-268 | the two loops remove every page and page table of the environment and nothing else |
| `EnvTable.Envs.EnvFree` | kern/env.c:246-277 | its pages go, the slot heads the list, and exactly its environment ends |
| `EnvTable.Envs.EnvDestroy` | kern/env.c:283-291 | as env_free; the current environment is forgotten exactly if it is the one destroyed |
| `EnvTable.Envs.Envid2env` | kern/env.c:37-62 | when an id is accepted, with and without the permission check, and that it leads to its slot |
| `EnvTable.Envs.IdResolves` | kern/env.c:37-62 | the n-th id ever issued resolves exactly as long as its environment exists: a freed id never does |
| `Sched.Scheduler.EnvRun` | kern/env.c:321-341 | makes the slot current and counts the run |
| `Sched.Scheduler.SchedYield` | kern/sched.c:17-83 | runs the first runnable slot in the order cur+1..NENV-1, 1..cur, or slot 0 if there is none |
| `Sched.PicksOne` | kern/sched.c:53-82 | that determines the slot |
| `Sched.Nearer` | kern/sched.c:53-82 | a runnable slot that is passed over comes strictly nearer |
| `Sched.RoundRobinIsFair` | kern/sched.c:17-83 | a slot that stays runnable runs within its distance, at most NENV - 1 calls |
| `Sched.RestartStarves` | kern/sched.c:53-62 | if the current environment is destroyed before each call, a runnable slot 1 starves all others |
| `Upcall.Cpu.PageFaultHandler` | kern/trap.c:221-243 | the five words pushed, on the exception stack or under the nested frame, and the new eip and esp |
| `Upcall.Cpu.SaveRegisters` | user/entry.S:62-67 | the three registers go into spare words of the frame |
| `Upcall.Cpu.StoreEip` | user/entry.S:77 | the first store goes to trap-time esp-4 and nowhere else |
| `Upcall.Cpu.StoreFlags` | user/entry.S:79 | the second to esp-8 |
| `Upcall.Cpu.Resume` | user/entry.S:81-95 | the remaining instructions, one by one, load the registers specified |
| `Upcall.Cpu.Return` | user/entry.S:73-95 | the instructions after the call are these, in this order |
| `Upcall.RunKeeps` | kern/trap.c:221-243 | a handler body, with any faults nested in it, changes no word at or above its frame and none below the exception page |
| `Upcall.DeepFits` | kern/trap.c:221-243 | upcalls in which every handler and both stores of every return sequence fault again fit, k deep, exactly if the exception stack has eleven words for each |
| `Upcall.FrameBuilt` | kern/trap.c:226-243 | the handler finds the faulting address and error code at its stack pointer, the frame is as the return expects it, and no live word is touched |
| `Upcall.FrameSurvives` | user/entry.S:69-71 | the frame is still intact when the body returns |
| `Upcall.FaultsKeep` | user/entry.S:73-79 | faults at a store of the return sequence, however many and nested, come back to it with all registers and leave the frame and everything above it alone |
| `Upcall.StoresMissFrame` | user/entry.S:77-79 | the words stored at trap-time esp-4 and esp-8 never overwrite a part of the frame still to be read |
| `Upcall.ReturnWorks` | user/entry.S:73-95 | whatever faults the two stores take, all registers of the interrupted code come back and only those two words change |
| `Upcall.UpcallRestores` | user/entry.S:60-95 | for every nesting that fits the exception page, faults at the two stores included, eip, esp, eflags, eax, ecx and edx are restored and no live word has changed |
| `ArgStack.InitStack` | user/spawn.c:16-84 | refuses exactly the arguments that do not fit; otherwise all stores are inside the page, the child decodes argc and every string as given, and the bound 4*(argc+3) is tight |
| `ArgStack.PlaceArg` | user/spawn.c:47-51 | copying one string and its pointer leaves the earlier ones in place |
| `ArgStack.PushArgs` | user/spawn.c:61-72 | the null word, argv and argc complete a page that decodes |
| `ArgStack.StaysPlaced` | user/spawn.c:33-51 | the string and the pointer areas do not overlap |
| `ArgStack.Readable` | user/spawn.c:47-72 | the placed words and strings are what the child decodes |
| `Tokenizer.TokensPartition` | user/sh.c:20-60 | the tokens cut the line up: each is one symbol or a run of other characters ended by a stop, they come in order without overlap, and what they leave out is exactly the white space |
| `Tokenizer.NoWordWhereOneStops` | user/sh.c:43-59 | where a word ended another can only begin after a gap |
| `Tokenizer.Lexer.EatSpace` | user/sh.c:35-36 | white space is overwritten up to the next token and nothing before or after |
| `Tokenizer.Lexer.GetTokenRaw` | user/sh.c:20-60 | finds the token of the original text at that place although the buffer is being overwritten, and touches nothing before it |
| `Tokenizer.Lexer.GetTokenFirst` | user/sh.c:68-71 | only scans ahead; all tokens are still to come |
| `Tokenizer.Lexer.Advance` | user/sh.c:72-75 | the lookahead moves by one token, and the old word now ends in NUL |
| `Tokenizer.Lexer.GetToken` | user/sh.c:62-76 | the next call returns the next token of the original text, 0 for ever after the last, and every word returned so far reads back NUL-terminated |

## Left out

- Fork.Machine.Fork: one environment without interference; if others free memory between two calls, an ignored failure to map a library page can leave the child without it.
- CowFork.NextInv: physical pages and page tables can be had whenever a step needs them. Of the mappings a program can make with its own calls only those of library pages are covered; a page the file server sends counts as a library page at both ends, although the server's own mapping has not the bit.
- CowFork.ForkIsIsolation: what `duppage` stores to between its two mappings is taken from the calling sequence, not from compiled code.
- PipeClosed.ClosedMeansClosed: `fork` and `spawn` are one step each. They map pages in ascending order, descriptors before pipe pages, so the inequality does not hold half way through.
- PipeClosed.NextInv: `pp_ref` and `env_runs` are unbounded numbers.
- PipeFifo.PipeIsFifo: one reader and one writer; the byte is stored before `p_wpos` is published and read before `p_rpos` is published, an order C leaves open. A read of 0 does not mean that the pipe was drained.
- FileServer.Server.FreeBlock: a word of the bitmap is 32 booleans, not a machine word, so the shift and mask operations themselves are not modelled.
- FileServer.Server.FileTruncate: the file's block numbers lie on the disk; `free_block` does not check, and would store outside the bitmap.
- BlockCache.CacheIsTransparent: disk transfers succeed; `unmap_block`, which nothing calls, is not used on blocks the server does not know to be changed.
- FileTree.Tree.FileCreate: whether a directory block can be read or allocated is a parameter, and so is what a new block holds; the blocks themselves are in `fs_volume.dfy` and `fs_growth.dfy`. A block that cannot be read gives an error, while the server panics at a free block, which an old directory entry may name. The `f_dir` field is not modelled.
- FileTree.Tree.FileRemove: the truncation and flush it performs are in `fs_volume.dfy` and `fs_cache.dfy`.
- LruCache.CacheIsTransparent: block 0, which unused entries carry as their number, is excepted; the block type and the swizzling are the identity on a little-endian host; the clock does not wrap.
- Format.FormatThenMount: a block is a value with a type (`Content`), so that builder and server agree on the byte layout of `struct File` and `struct Super` is assumed, not shown.
- Format.Builder.WriteFile: what C does after a store past the end of `f_direct` or `f_name` (outcome `Overrun`); errors while reading the input.
- Format.Builder.OpenDisk: reports a disk of no whole block at once, where the original exits at the first `getblk` after it.
- Ipc.ExactlyOnce: a failed allocation of a page table inside `page_insert` is the parameter `room`; environments do not die in the middle of a message.
- FsProtocol.RepliesMatchRequests: clients use only `fsipc` with a mapped argument page and one of the seven request codes; for anything else the server does not answer and the client waits for ever.
- IpcMailbox.KernelReplies: other environments send nothing to clients or the server; every send of the protocol passes the kernel's argument checks and finds a page table (`SendGood`); the argument page is the protocol's `buf`, not a page of the kernel's memory.
- OpenTable.Table.StaleIdsRejected: up to 2^22 openings of one slot, after which ids repeat (`IdsRepeat`).
- EnvTable.Envs.IdResolves: the first 2^20 - 1 allocations; after that ids can be negative as `int` and repeat.
- Upcall.RunKeeps: a handler body stores on the exception page only; the stores of `pgfault` to its scratch page, and its system calls, are in `fork.dfy` and `cow_fork.dfy`.
- Upcall.UpcallRestores: memory is addressed in words, so an unaligned stack pointer is not covered; the exception page itself is never copy-on-write.
- ArgStack.InitStack: the system calls that allocate, map and unmap the scratch page succeed, and the total length of the arguments is below 2^31.
- `sys_set_env_status` beyond the way `fork` and `spawn` use it: with other arguments it may free a slot without listing it, or wake a receiver.
- `user/file.c` as an abstraction of files: it passes byte offsets where block numbers are expected, so a clean refinement does not hold.
- Device drivers, boot code, console, printf, the shell's exec and redirection, a.out loading, descriptor packing, makefiles and sample programs.
