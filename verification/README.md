# A model of a small 16-bit operating system

The repository holds a preemptive kernel for 16-bit PCs, its drivers and shell, and
hosted tools that work on FAT12 disk images. This project models, in Dafny, the parts
whose correctness depends on state kept across calls, and proves what they promise:

- **The scheduler.** `TaskQueues` holds the ring queues of tasks with their links,
  `Sched` the task table, the free list, the sleeping queue and the semaphores as the
  kernel links them. `SchedSpec` and `SchedSteps` give the same operations as steps of
  a state machine over values. Every linked operation is proved to be its step, every
  step keeps the invariant, and `SchedRuns`, `SchedSleep` and
  `SchedLaws` prove what holds over runs: no panic, strict priority, who stays ready and
  who waits where, bounded waiting, mutual exclusion, who wakes when, and which task
  slots come back.
- **The hosted block cache.** `CacheSpec` is the write-back cache as a function of its
  blocks and the device, `BlkCache` the ring of blocks that the tools link, and
  `CacheRuns` shows that a run on the cache is the same run on the disk without one.
- **The FAT12 tools.** `Fat12` is the packed table, `FatChains` the cluster chains and
  what truncating, growing and allocating do to them, `FatFiles` and `Dirents` the
  bytes of files and entries, `FatSpots` what a read copies from any offset,
  `FatVolume` and `FatOps` the operations over the cache: `clus_*`, `fobj_*`,
  `f_read`, `f_write`, `f_lseek`.
- **The kernel's file system.** `KernelWalk` is what `fat_read` copies and
  `KernelRead` the methods that read, `Directory` searches a directory, `PathWalk` walks a path, `Paths` parses and prints
  8.3 names, `KernelCache` is the kernel's cache of reference-counted blocks, and
  `KernelHolds` counts who holds them.  `DiskLayout` ties all of this to the format: which
  bytes of which sectors are an entry of the table, a byte of a file, a directory entry.
- **The heap.** `HeapSpec` is the list of paragraph blocks, `HeapRoom` how much of it is
  free, and `Heap` the headers in memory that the far heap and the DMA pool walk.
- **Devices.** `TtyCook` is the line discipline, `TtyOut` the transmit queue of a
  serial port, `Floppy` the planning of floppy transfers.

`Arith`, `Bytes` and `Rings` hold what several of these share. Code that updates
fields is modelled by classes whose methods are proved against functions of the old
state; the theorems are lemmas about those functions.

Some promises turn out not to hold of the code. For each there is a
concrete input and a lemma that says exactly when the promise is kept:

| what fails | input | exact condition |
|---|---|---|
| `task_sleep` keeps the sleeping queue in due order | `SchedSleep.Overslept` | `SchedSleep.SleepOrder`, `SchedSleep.WakeExact` |
| an exiting task's slot comes back | `SchedSleep.SlotLost` | `SchedSleep.SlotReturns` |
| `task_sch_async` may be given any task | `SchedSteps.AsyncRunning` | `SchedSteps.AsyncExact` |
| `clus_set_next` stores inside its block | `Fat12.StoreIndexMisses` | `Fat12.StoreIndexInBlock` |
| `fobj_trunc` leaves the file a chain | `FatChains.TruncBreaks` | `FatChains.TruncChain`, `FatOps.FileTable.ChainKept` |
| `f_read` keeps within the caller's buffer | `FatSpots.ReadOverruns`, `FatSpots.EmptyOverruns`, `FatSpots.NegativeOverruns` | `FatSpots.ReadStays`, `FatSpots.ReadStaysWhole` |
| `fat_read` keeps within the caller's buffer | `KernelWalk.FatReadOverruns`, `KernelWalk.FatReadEmpty` | `KernelWalk.FatStays`, `KernelWalk.FatStaysWhole` |
| `fat_read` ends with 0 bytes at the end of a file | `KernelWalk.FullCluster` | `KernelWalk.EndOfFile` |
| what `ls` prints names the file | `Paths.BlankBase`, `Paths.DotFirst` | `Paths.ComesBack` |
| a read of the tty waits for a whole line | `TtyCook.ErasedLineEnd` | `TtyCook.ReadsPart` |
| a bounced transfer fits the bounce buffer and is reported truly | `Floppy.BounceOverflows` | `Floppy.BounceFits`, `Floppy.ReportIsTrue` |
| a change to a block survives a failed write | `KernelCache.WriteLost` | `KernelCache.GivenFails` |

`dafny verify dfyconfig.toml` checks everything.

## Model

| member | source | states |
|---|---|---|
| TaskQueues.TaskQ.Push | kernel/sched/taskq.c:21-39 | A task that is on no queue is linked in before the head: the queue stays one closed, doubly linked ring whose tasks name it as owner, and the new task is its last. |
| TaskQueues.TaskQ.Remove | kernel/sched/taskq.c:73-93 | Any task of a queue is unlinked, wherever it stands and also when it is the only one: the others stay a ring in the same order and the task has no owner and no links. |
| TaskQueues.TaskQ.Pop | kernel/sched/taskq.c:44-69 | The first task is unlinked and the others stay a ring in the same order; an empty queue gives null and stays empty. |
| SchedSteps.BootedInv | kernel/sched/TASK.C:47-85 | Setting up the tasks establishes the scheduler's invariant, with the calling task alone in the normal bucket and the idle task alone in the lowest. |
| SchedSteps.StepInv | kernel/sched/TASK.C:132-452 | Every atomic operation, called as `Enabled` asks, keeps the invariant: each task is on exactly the queue it names or on none, ready tasks are in the bucket of their priority, the idle task is always ready, the running task heads its bucket, and each semaphore's count agrees with its waiters and holders. |
| SchedSteps.AsyncExact | kernel/sched/TASK.C:276-323 | Scheduling an async callback keeps the invariant exactly for a task that is on no queue and not free. |
| SchedSteps.AsyncRunning | kernel/sched/TASK.C:276-323 | For the running task, whose callback has not returned, it breaks the invariant. |
| SchedSteps.UpExact | kernel/sched/semap.c:60-88 | An up keeps the invariant exactly when the caller is inside. |
| SchedRuns.NoPanic | kernel/sched/TASK.C:434-452 | After any run from a good state some task can be chosen, the running task waits for no semaphore, and a semaphore that owes a wake-up has a waiter, so neither the scheduler's nor the semaphores' panic is reached. |
| SchedRuns.BestRuns | kernel/sched/tasksw.asm:160-192 | After every event that selects a task the one that runs is the first of the best non-empty bucket. |
| SchedRuns.BucketStep | kernel/sched/tasksw.asm:160-192 | A step moves no ready task back in its bucket, and moves the bucket on by one only when its running task gives up its turn. |
| SchedRuns.BoundedWaiting | kernel/sched/TASK.C:434-452 | A ready task that has k tasks to wait for runs within k selections, as long as nothing of higher priority becomes ready. |
| SchedRuns.SemaphoreRun | kernel/sched/semap.c:20-88 | Over any run a semaphore has at most as many tasks inside as permits, makes nobody wait while a permit is free, and lets tasks in exactly in the order in which they asked. |
| SchedRuns.MutualExclusion | kernel/sched/semap.c:20-88 | With one permit two tasks are never inside at once. |
| SchedLaws.WhoRuns | kernel/sched/tasksw.asm:160-192 | When the running task gives up its turn or the idle task yields, a task runs that heads its bucket while all buckets of higher priority are empty; in every other step the running task runs on. |
| SchedLaws.StaysReady | kernel/sched/TASK.C:132-452 | In any step a ready task stays ready exactly unless it is the running one and blocks, goes to sleep, has to wait in a down, or exits. |
| SchedLaws.Preempted | kernel/sched/tasksw.asm:160-192 | The running task at a switch is ready afterwards, last in its bucket behind the others in their order, and no other queue changes. |
| SchedLaws.RunsAgain | kernel/sched/tasksw.asm:160-192 | It runs again within as many selections as its bucket holds tasks, while nothing of higher priority becomes ready. |
| SchedLaws.MadeReady | kernel/sched/TASK.C:276-371 | A blocked task that is unblocked, one whose callback is scheduled, one that is started while a slot is free, and the first waiter of a semaphore at an up are ready afterwards, last in their bucket; a started task takes the first free slot and has a priority of at most 19. |
| SchedLaws.ReservedThenReady | kernel/sched/TASK.C:105-124 | A reserved task takes the first free slot and is on no queue; scheduling its callback makes it ready in the bucket of the priority it was reserved with. |
| SchedLaws.MarkedExits | kernel/sched/tasksw.asm:75-124 | A task that marks itself and exits at once leaves its slot in front of the free list. |
| SchedLaws.WaitingStep | kernel/sched/TASK.C:329-371 | A queue of blocked tasks changes only by the running task coming last, by an unblocked task leaving, or by the first leaving at an up. |
| SchedLaws.DownIs | kernel/sched/semap.c:20-56 | With a count above 0 the caller of a down runs on inside and nothing moves; otherwise it is blocked, last on the queue of the semaphore, and another runs. The count goes down by one. |
| SchedLaws.UpIs | kernel/sched/semap.c:60-88 | An up makes the first waiter ready and puts it inside in place of the caller, or without waiters gives the permit back and moves nothing. The count goes up by one. |
| SchedLaws.HoldersBounded | kernel/sched/semap.c:20-88 | With holders counted by events alone (a down that returns comes in, an up goes out) there are never more than permits, the next down returns at once exactly while there are fewer, and somebody waits only when none is left. |
| SchedLaws.OneAtATime | kernel/sched/semap.c:20-88 | With one permit, between the return of a task's down and its up the down of no other task returns. |
| SchedLaws.FallsAsleep | kernel/sched/TASK.C:216-248 | A task that sleeps for n ticks, 0 counting as 1, is due n ticks from now in 32 bits, and another runs. |
| SchedLaws.WakesUpTo | kernel/sched/TASK.C:262-271 | At a wake-up a sleeper becomes ready exactly if it and all who stand in front of it are due, and sleeps on otherwise. |
| SchedLaws.WokenAfter | kernel/sched/TASK.C:216-271 | A task that goes to sleep for n ticks and is not unblocked sleeps through n - 1 ticks; the n-th makes it ready exactly if all in front of it are due then, and so always in a queue in due order with nobody overdue. |
| SchedSleep.SleepOrder | kernel/sched/TASK.C:216-248 | Inserting a sleeper keeps the sleeping queue in the order of wake-up times exactly when it is due before the first or not before the last. |
| SchedSleep.WakeExact | kernel/sched/TASK.C:262-271 | A wake-up wakes everybody who is due now exactly when all who are due stand in front of the queue. |
| SchedSleep.OrderedWake | kernel/sched/TASK.C:262-271 | With the queue in order and nobody overdue, every task that is due is woken. |
| SchedSleep.Overslept | kernel/sched/TASK.C:216-271 | Nineteen events from system start, in which three tasks sleep for 5, 10 and 7 ticks and seven timer interrupts tick and switch, end with the third due at this very tick and still asleep. |
| SchedSleep.SlotReturns | kernel/sched/tasksw.asm:75-192 | From marking itself to leaving, a task's slot comes back to the free list exactly when no event in between took the processor from it; otherwise it is neither free nor queued. |
| SchedSleep.SlotLost | kernel/sched/tasksw.asm:75-192 | From system start the three events mark, switch, exit lose slot 0. |
| Sched.Kernel.constructor | kernel/sched/TASK.C:47-85 | The linked task table, queues and free list that are set up stand for the initial state of the state machine. |
| Sched.Kernel.TaskBlock | kernel/sched/TASK.C:329-336 | The linked operation is the Block step: the running task leaves its bucket for the end of a blocked queue and the best task runs. |
| Sched.Kernel.TaskUnblock | kernel/sched/TASK.C:340-371 | The linked operation is the Unblock step: a blocked task goes from its queue to the end of its bucket, any other is left alone, and the running task runs on. |
| Sched.Kernel.TaskSleep | kernel/sched/TASK.C:216-248 | The linked operation, its scan of the sleeping ring included, is the Sleep step. |
| Sched.Kernel.TaskWake | kernel/sched/TASK.C:262-271 | The loop over the sleeping ring ends in the state of `WakeAll`: sleepers are readied from the front while they are due at this tick. |
| Sched.Kernel.TaskSchAsync | kernel/sched/TASK.C:276-323 | The linked operation is the Async step: a task that is on no queue becomes ready in its bucket. |
| Sched.Kernel.ISwitch | kernel/sched/tasksw.asm:160-192 | The linked operation is the Switch step: the running task goes behind the others of its bucket and the best task runs. |
| Sched.Kernel.TimerTick | kernel/sched/tasksw.asm:314-316 | The first part of a timer interrupt is the Tick step: the 32-bit count goes up and those due are woken, while the running task stays. |
| Sched.Kernel.TimerInterrupt | kernel/sched/tasksw.asm:314-337 | A timer interrupt is the Tick step, and behind it the Switch step unless the task lock is held. |
| Sched.Kernel.IdleLoop | kernel/sched/TASK.C:470-476 | One round of the idle task is the IdleYield step. |
| Sched.Kernel.SemaDown | kernel/sched/semap.c:20-56 | The linked operation is the Down step: the caller enters, or waits behind the others on the semaphore's queue. |
| Sched.Kernel.SemaUp | kernel/sched/semap.c:60-88 | The linked operation is the Up step: the place goes to the first waiter, or becomes free. |
| Sched.Kernel.TaskStart | kernel/sched/TASK.C:132-172 | The linked operation is the Start step and gives null exactly when no slot is free. |
| Sched.Kernel.TaskReserve | kernel/sched/TASK.C:105-124 | The linked operation is the Reserve step; without a free slot or a stack it gives null and loses no slot. |
| Sched.Kernel.MarkExiting | kernel/PROCESS.C:89-126 | Marking the running task as leaving is the MarkFreeing step. |
| Sched.Kernel.TaskExit | kernel/sched/tasksw.asm:75-124 | The linked operation is the Exit step: the running task leaves its bucket, its slot is freed if it is still marked, and the best task runs. |
| CacheSpec.GetResult | hosted/blkcache/blkcache.c:168-226 | `bc_get` fails with -ENODEV exactly without a device and -ENOMEM exactly when the block is not cached and all are held, and with -EIO only for a sector that does not exist; otherwise it hands out a block of that sector, held, with the contents that users see, unless it was asked for to be overwritten. |
| CacheSpec.GetKeeps | hosted/blkcache/blkcache.c:168-226 | `bc_get`, whatever it evicts and writes back, keeps the invariant, every block in use other than the one it hands out, and every sector as users see it, apart from one asked for to be overwritten. |
| CacheSpec.FlushedKeeps | hosted/blkcache/blkcache.c:281-308 | Writing a block back changes the device but no sector as users see it, and leaves the block clean. |
| CacheSpec.SyncedDevice | hosted/blkcache/blkcache.c:116-129 | After `bc_sync` the device holds every sector as users see it, which has not changed. |
| BlkCache.Cache.constructor | hosted/blkcache/blkcache.c:59-114 | The ring that `bc_init` links holds at least the required number of free blocks, whose buffers lie apart and cross no page, and stands for the disk. |
| BlkCache.Cache.BcGet | hosted/blkcache/blkcache.c:168-226 | The search of the linked ring and the choice of the first free block from the head on give the block and the state of the function `Get`; the head moves to the block behind the one that was replaced. |
| BlkCache.Cache.BcPut | hosted/blkcache/blkcache.c:230-254 | A held block of the ring is released and nothing else changes; anything else gives -EINVAL and changes nothing. |
| BlkCache.Cache.BcSync | hosted/blkcache/blkcache.c:116-129 | The loop around the ring flushes every block. |
| CacheRuns.RunRefines | hosted/blkcache/blkcache.c:116-308 | After any run of gets, changes, puts and syncs a block got for reading holds what the same run on a disk without a cache holds, and a sync then makes the device that disk. |
| CacheRuns.RunFromStart | hosted/blkcache/blkcache.c:59-308 | The same holds of every run from a cache that was just set up for a disk. |
| CacheRuns.TakesFirstFree | hosted/blkcache/blkcache.c:168-226 | A sector that is cached keeps its block; otherwise `bc_get` takes the first block from the head on that is not in use, the head moves behind it, and no other block changes. |
| CacheRuns.UnitExists | hosted/blkcache/blkcache.c:258-278 | Units below 128 are floppies, those up to 255 hard disks, and those from 256 on mounted images. |
| Fat12.MountGood | hosted/fat/fileops.c:29-49 | The arithmetic of mounting gives FAT, root directory and data regions that follow one another, a root directory of just the sectors its entries need, and clusters that fill the volume to within one. |
| Fat12.WithEntryGets | hosted/fat/cluster.c:12-99 | A 12-bit entry that is set reads back, and every other entry, also the one sharing a byte with it, reads as before. |
| Fat12.SetNextView | hosted/fat/cluster.c:47-99 | With its index reduced to the block, setting an entry changes just that entry of the table and no sector outside the FAT, and copies that were alike stay alike. |
| Fat12.StoreIndexInBlock | hosted/fat/cluster.c:47-99 | As written the setter stores inside its block exactly for clusters up to 340, and then in the right place. |
| Fat12.StoreIndexMisses | hosted/fat/cluster.c:47-99 | For cluster 341 the second byte is stored one behind the block. |
| DiskLayout.EntryPair | hosted/fat/cluster.c:12-42 | The entries of clusters 2h and 2h + 1 are the lower and the upper twelve bits of the little-endian number in bytes 3h to 3h + 2 of the table. |
| DiskLayout.SetPair | hosted/fat/cluster.c:47-99 | Setting an entry sets just its twelve bits of that number and no other byte. |
| DiskLayout.FatByteIs | hosted/fat/cluster.c:12-99 | Byte o of copy k of the table is byte o % 512 of sector o / 512 of that copy, and the copies follow one another from the first sector of the FAT on. |
| DiskLayout.EndMark | hosted/fat/fileobj.c:15-79 | Linked clusters are a chain exactly when the entry of the last is 0xff0 or more. |
| DiskLayout.FileByteIs | hosted/fat/fileobj.c:178-206 | Byte j of cluster i of a file is in sector j / 512 of that cluster, where cluster 2 begins at the first data sector and clusters follow one another. |
| FatChains.ChainAcyclic | hosted/fat/cluster.c:12-42 | Clusters linked up to an end mark do not repeat. |
| FatChains.ChainUnique | hosted/fat/fileobj.c:178-206 | A chain is determined by its first cluster. |
| FatChains.TruncLinks | hosted/fat/fileobj.c:15-79 | Changing a file's length changes only its own clusters and free ones, and succeeds exactly when the clusters it has and the free ones are enough, ending with as many as needed. |
| FatChains.TruncFrees | hosted/fat/fileobj.c:15-79 | Shortening to a number of clusters other than 0 frees the last one kept and all behind it, as many as that makes, and changes no other entry. |
| FatChains.GrowsLowest | hosted/fat/fileobj.c:15-79 | Growing takes the lowest free clusters in ascending order, frees none, and leaves 0xfff in the last. |
| FatChains.TruncChain | hosted/fat/fileobj.c:15-79 | The file's clusters are a chain afterwards exactly when it was emptied or got more clusters. |
| FatChains.TruncBreaks | hosted/fat/fileobj.c:15-79 | A file of one cluster that keeps it is left with that cluster marked free. |
| FatChains.OtherChain | hosted/fat/fileobj.c:15-79 | The chain of every other file stays as it is and stays apart. |
| FatChains.RunConserves | hosted/fat/fileobj.c:15-79 | Over any series of length changes that empty or grow files, all files stay chains apart from one another, and free and used clusters together stay as many. |
| FatVolume.FatVol.ClusGetNext | hosted/fat/cluster.c:12-42 | Over the cache, with an entry in one sector or two, the entry of the table is read and nothing that users see changes; it fails only when all blocks are held. |
| FatVolume.FatVol.ClusSetNext | hosted/fat/cluster.c:47-99 | Over the cache the entry is set in every copy of the table; where that fails for want of a block, nothing has changed. |
| FatVolume.FatVol.ClusAlloc | hosted/fat/cluster.c:107-153 | The scan finds the lowest free cluster and marks it as an end, or says -ENOSPC exactly when there is none. |
| FatVolume.FatVol.FobjTrunc | hosted/fat/fileobj.c:15-79 | Over the cache the loops end in the table and chain of the function `Trunc`, the directory entry gets the first cluster and the length, and no sector outside the FAT and the entry's changes. |
| FatVolume.FatVol.FobjGetSecAtOffs | hosted/fat/fileobj.c:178-206 | For any offset, taken as a signed long, and for a file without clusters too, the block handed out is that of the sector `SpotAt` gives; -EIO comes exactly when the walk ends before it or the sector does not exist. |
| FatFiles.TargetExact | hosted/fat/fileobj.c:17-19 | The number of clusters computed for a length is just enough exactly when length and cluster size together stay below 2^32; else it is 0. |
| FatFiles.WrittenByte | hosted/fat/fileops.c:239-292 | After a write each byte of the file is the new one in the range written and the old one elsewhere. |
| FatFiles.ReadLenBeyond | hosted/fat/fileops.c:182-227 | At an offset behind the end the size that is read is no more than was asked for exactly when the distance to the end, in the width of a size_t, is 0 or that close to wrapping around. |
| FatSpots.ArrivedInside | hosted/fat/fileops.c:182-227 | Within the file's clusters what the loop copies is the file's bytes. |
| FatSpots.ReadStays | hosted/fat/fileops.c:182-227 | For every file, offset and size the loop puts no more than `size` bytes into the buffer exactly when the request is cut down to no more, or one of the turns for those bytes and the next finds no sector. |
| FatSpots.ReadStaysWhole | hosted/fat/fileops.c:182-227 | On a disk with all its sectors that is: the offset is within the file, or the request is cut down to no more than `size`, or the walk ends before, at the end of the clusters (of cluster 0 for a file without any), or a cluster below zero. |
| FatSpots.ReadOverruns | hosted/fat/fileops.c:182-227 | Reading 4 bytes at offset 20 of a file of 10 bytes copies 492. |
| FatSpots.EmptyOverruns | hosted/fat/fileobj.c:178-206 | Reading 4 bytes at offset 1 of an empty file copies 511 bytes of the sector two clusters before the data. |
| FatSpots.NegativeOverruns | hosted/fat/fileops.c:182-320 | Reading 4 bytes five below zero, where a seek can lead, copies 15. |
| FatSpots.SoundWhole | hosted/fat/fileobj.c:178-206 | On a disk with all its sectors a read from any offset stays among sectors with valid numbers and runs off the clusters only into an end mark. |
| Dirents.PutDirentGets | hosted/fat/fileobj.c:15-79 | The first cluster and the size put into a directory entry read back, and every other byte of its sector stays. |
| DiskLayout.DirentIs | hosted/fat/fat.h:77-87 | The first cluster is the little-endian word at offset 26 of an entry, the size the long word at offset 28. |
| DiskLayout.StoredIsFollowed | kernel/fat/dir.c:21-69 | The first cluster that is stored in an entry is the one a path goes on to from it; name and attributes stay. |
| FatOps.FileTable.FRead | hosted/fat/fileops.c:182-227 | Through the cache exactly what `Arrived` says is copied, for any offset and for empty files too, the rest of the memory stays, and the offset moves on by it and wraps; within the file it is the file's bytes up to the size or the end. -EINVAL comes exactly for a file that is not open or a sum that wraps. |
| FatOps.FileTable.FWrite | hosted/fat/fileops.c:239-292 | A write that succeeds stores all of its data, growing the file when it must; without a free block the disk stays as it was; on a full volume the file has got all clusters there were, and its entry, size and offset stay. |
| FatOps.FileTable.FLseek | hosted/fat/fileops.c:296-320 | The offset is set from the beginning, the offset or the end, as an unsigned number, and no other open file moves. |
| FatOps.FileTable.WriteSucceeds | hosted/fat/fileops.c:239-292 | A write succeeds when a block is free and the volume has the clusters it needs. |
| FatOps.FileTable.WriteAndReadBack | hosted/fat/fileops.c:182-320 | Writing, seeking back and reading gives the bytes that were written, through the cache and a growing chain. |
| FatOps.FileTable.RestOfFile | hosted/fat/fileops.c:239-292 | A write leaves every byte of the file outside its range alone. |
| FatOps.FileTable.OtherFile | hosted/fat/fileops.c:239-292 | A write leaves every other file its chain and all its bytes. |
| FatOps.FileTable.NoSpaceKeeps | hosted/fat/fileops.c:239-292 | A write for which the volume has too few clusters leaves the file its bytes and a chain longer by all that were free, and every other file its chain and bytes. |
| FatOps.FileTable.WriteBeside | hosted/fat/fileops.c:239-292 | A write through the cache, whether it succeeds or the volume is full, leaves the rest of the file and any other file alone. |
| FatOps.FileTable.EntryAgrees | hosted/fat/fileops.c:239-292 | Afterwards the directory entry on the disk holds the first cluster and the new size, or is untouched when the file did not grow. |
| FatOps.FileTable.OtherSectors | hosted/fat/fileops.c:239-292 | Sectors outside the FAT, the file and its entry stay as they are, and equal copies of the FAT stay equal. |
| FatOps.FileTable.ChainKept | hosted/fat/fileops.c:239-292 | A write leaves the file a chain exactly when it ends within the file or needs clusters that the file did not have. |
| KernelRead.InoUnpacks | kernel/include/fatfs.h:33-35 | An inode number gives sector and offset of its entry back exactly for sectors below 2^28 and offsets on a 32-byte boundary. |
| KernelRead.Reader.GetSecAtOffs | kernel/fat/fileobj.c:106-133 | The walk from the first cluster gives the file's sector with that offset. |
| KernelRead.Reader.FatRead | kernel/fat/fileops.c:152-279 | What `FatFetched` says is copied, or where an access fails a first part of it; on a working disk the read succeeds exactly when that comes to its end. Within the file these are exactly the file's bytes up to the size or the end, over its sectors in order, and the read succeeds exactly when the file has a cluster for the offset or none at all. |
| KernelWalk.FetchedInside | kernel/fat/fileops.c:185-270 | Carrying the place in the chain along, the loop copies the bytes that looking every sector up from the head of the chain gives, and reads those sectors in order. |
| KernelWalk.EndOfFile | kernel/fat/fileops.c:185-209 | For a file with just the clusters it needs a read at its end copies nothing and succeeds exactly when the file is empty or its length is no multiple of the cluster size. |
| KernelWalk.FullCluster | kernel/fat/fileops.c:185-209 | For a file of 512 bytes in one cluster of 512 it fails. |
| KernelWalk.FatStays | kernel/fat/fileops.c:178-270 | For every file, offset from zero on and size no more than `size` bytes are copied exactly when the request is cut down to no more, or the walk ends before the offset, or one of the turns for those bytes and the next finds no sector. |
| KernelWalk.FatStaysWhole | kernel/fat/fileops.c:178-270 | On a disk with all its sectors, and none where the last cluster's entry points, that is: the offset is within the file, or the request is cut down to no more than `size`, or the clusters (cluster 0 for a file without any) end before. |
| KernelWalk.FatReadOverruns | kernel/fat/fileops.c:178-270 | Reading 4 bytes at offset 20 of a file of 10 bytes copies 492. |
| KernelWalk.FatReadEmpty | kernel/fat/fileops.c:178-270 | Reading 4 bytes at offset 1 of an empty file copies 511. |
| Directory.FoundExactly | kernel/fat/dir.c:81-173 | A search finds an entry exactly when one matches and no end mark stands before it or at it. |
| Directory.SearchFinds | kernel/fat/dir.c:81-173 | What it finds is the first match. |
| DiskLayout.FoundByName | kernel/fat/dir.c:81-173 | A name is found exactly when an entry has its 11 bytes and none up to there begins with 0; an unused slot exactly when an entry begins with 0 or 0xe5. |
| DiskLayout.RootEntryIs | kernel/fat/dir.c:81-173 | Entry i of the root directory is 32 bytes of sector i / 16 of its region, the first 11 are the name, and the inode number is 16 times the sector plus i % 16. |
| DiskLayout.ChainEntryIs | kernel/fat/dir.c:81-173 | Byte k of entry i of a subdirectory is byte 32 i + k of its clusters. |
| DiskLayout.DirectoryBit | kernel/include/fatfs.h:67-67 | An entry is a directory exactly when bit 4 of the byte at offset 11 is set. |
| Directory.Searcher.DirFindEnt | kernel/fat/dir.c:81-173 | The loop over the sectors of the root directory or of a chain of clusters gives the search's answer: the entry and the inode number of its place, or -ENOENT. |
| PathWalk.ElementsJoin | kernel/fat/path.c:106-124 | The names of two paths with a slash between them are the names of the one and then of the other. |
| PathWalk.ElementsOne | kernel/fat/path.c:106-124 | A path without a slash is one name, or none if it is empty. |
| PathWalk.LookupIs | kernel/fat/dir.c:21-69 | From a directory a name leads to its first entry with the parsed name, if no entry before begins with 0, and nowhere otherwise. |
| PathWalk.ResolveJoin | kernel/fat/dir.c:21-69 | Looking up a path and going on from there is looking up the two joined. |
| PathWalk.ThroughDirectories | kernel/fat/dir.c:21-69 | A path that leads somewhere leads only through directories. |
| PathWalk.PathCaseBlind | kernel/fat/dir.c:21-69 | Paths that differ in upper and lower case lead to the same place. |
| PathWalk.DirFindPath | kernel/fat/dir.c:21-69 | The loop over the elements gives the entry to which the list of names leads from the root, and -ENOENT only when it leads nowhere or is empty. |
| Paths.PathParseFn | kernel/fat/path.c:26-97 | The loops fill in the name of the function `Parse`, or say -EINVAL. |
| Paths.BadExactly | kernel/fat/path.c:26-97 | The strings that are refused are exactly those with more than eight bytes before the first dot or the end, and those with more than three bytes behind the first dot; one or two bytes with a dot in front, and whatever begins with two dots, are never refused. |
| Paths.ParsesBase | kernel/fat/path.c:26-97 | A base of up to eight bytes is stored in upper case, with spaces behind it. |
| Paths.ParsesAs | kernel/fat/path.c:26-97 | A base, a dot and an extension of up to three bytes are stored in the first eight and the last three bytes. |
| Paths.ParsesDots | kernel/fat/path.c:26-97 | One dot and two dots are stored with zeros behind them. |
| Paths.PrintsAs | native/shell/MAIN.C:87-106 | A stored base and extension are printed without their padding and with a dot between them, or without it if there is no extension. |
| Paths.PrintParsed | native/shell/MAIN.C:87-106 | Parsing what `ls` prints for a canonical name gives the name back. |
| Paths.PrintName | native/shell/MAIN.C:87-106 | The loops put out the bytes of the function `Print`. |
| Paths.ComesBack | native/shell/MAIN.C:87-106 | For every 11-byte name what `ls` prints is parsed as that name exactly when the name is canonical, or is the parent directory's, or has a blank base and an upper-case, space-padded extension that is empty or has two or three bytes and no dot in front. |
| Paths.BlankBase | native/shell/MAIN.C:87-106 | A blank base with an extension of one letter does not come back. |
| Paths.DotFirst | native/shell/MAIN.C:87-106 | Neither does the base `.A`. |
| Paths.NextEle | kernel/fat/path.c:106-124 | The next element of a path is a maximal run without a slash behind slashes alone, empty exactly at the end. |
| HeapSpec.AllocKeeps | kernel/MEMORY.C:204-253 | First fit keeps the pool tiled and merged, fails exactly when no free block is large enough, and gives a free block that is. |
| HeapRoom.AllocTakes | kernel/MEMORY.C:204-253 | An allocation takes the lowest free block that is large enough and hands out the paragraphs asked for or one more; the free paragraphs go down by just that block and its header. |
| HeapRoom.FreeGives | kernel/MEMORY.C:255-312 | A free gives back the paragraphs of its block and its header. |
| HeapRoom.RunMakes | kernel/MEMORY.C:82-312 | Over any run what is free and what is in use make up the pool, and what is in use is what was asked for and not taken back, with a header and at most one paragraph more a block. |
| HeapRoom.RequestsMet | kernel/MEMORY.C:204-253 | From the start, requests are met one after the other as long as what they need, each two paragraphs more than asked for, fits the pool together. |
| HeapSpec.RunHonours | kernel/MEMORY.C:82-312 | After any run of allocations and frees every block that was given out and not taken back is still a block in use with the paragraphs asked for or one more, and no other block is in use. |
| HeapSpec.RunApart | kernel/MEMORY.C:82-312 | After any run from the start any two blocks given out lie in the pool and do not overlap. |
| HeapSpec.FreeUndoesAlloc | kernel/MEMORY.C:204-312 | Freeing a block just allocated restores the list of blocks. |
| HeapSpec.FreeTwice | kernel/MEMORY.C:255-312 | Freeing a free block changes nothing. |
| HeapSpec.FreeEverything | kernel/MEMORY.C:57-312 | Freeing all blocks in use, in any order, restores the single free block of the start. |
| Heap.Arena.constructor | kernel/MEMORY.C:57-80 | The header written at the start makes memory the list of one free block. |
| Heap.Kmalloc | kernel/MEMORY.C:204-253 | The walk over the headers in memory allocates as `Alloc` does, with NULL exactly when no free block has room; the block handed out has the bytes asked for and fewer than 32 more. |
| Heap.Kfree | kernel/MEMORY.C:255-312 | The walk frees and merges as the list operation does; it panics exactly for a pointer that is not behind a header. |
| Heap.MallocThenFree | kernel/MEMORY.C:204-312 | `kmalloc` and then `kfree` do not panic and leave the far heap as it was. |
| Heap.DmaAlloc | kernel/MEMORY.C:82-130 | The same as `kmalloc`, for the pool whose addresses count bytes in 16 bits. |
| Heap.DmaFree | kernel/MEMORY.C:132-188 | The same as `kfree`, with a panic also for another segment. |
| Heap.DmaAllocThenFree | kernel/MEMORY.C:82-188 | `mem_dma_alloc` and then `mem_dma_free` do not panic and leave the pool as it was. |
| TtyCook.NeverOverruns | kernel/ttycook/TTYCOOK.C:38-85 | A character is stored only where the ring has room, and always with room for three. |
| TtyCook.EditIs | kernel/ttycook/TTYCOOK.C:38-85 | Key by key, 8 and 127 take the last character away, 13 becomes 10, and any other key is added as it is. |
| TtyCook.LineArrives | kernel/ttycook/TTYCOOK.C:38-113 | Up to 125 keys without line ends, typed into an empty ring wherever its head stands, then Return, and a read that is large enough: the reader gets what editing leaves of the keys and a line feed. |
| TtyCook.TextArrives | kernel/ttycook/TTYCOOK.C:38-113 | A text without 8, 10, 13 and 127 typed so comes back as it is, with 10 behind it. |
| TtyCook.RunKeeps | kernel/ttycook/TTYCOOK.C:38-113 | Over any run the ring stays within bounds, what was read begins what the keys amount to after erasing, and the count of lines is right exactly when no line end was erased. |
| TtyCook.ReadsALine | kernel/ttycook/TTYCOOK.C:87-113 | A read gives characters exactly when its size is not 0, some are there, and a line end is among them or the count is above the line ends; it ends at the first line end, at its size, or at the last character. |
| TtyCook.ReadsPart | kernel/ttycook/TTYCOOK.C:87-113 | A read gives part of a line that is not complete exactly when there is none complete and the count is above the line ends, that is, when a line end was erased. |
| TtyCook.ErasedLineEnd | kernel/ttycook/TTYCOOK.C:38-113 | Return, backspace and a letter let a reader have a part of a line. |
| TtyCook.Cooker.Putc | kernel/ttycook/TTYCOOK.C:38-85 | The ring in its array takes the character, or erases, as the list of characters does. |
| TtyCook.Cooker.ReadLine | kernel/ttycook/TTYCOOK.C:87-113 | The loop copies the first characters of the ring, as many as `ReadLen` says, and removes them. |
| TtyOut.CookUndone | kernel/ttycook/TTYCOOK.C:115-155 | Cooked output is longer by its line ends and can be undone. |
| TtyOut.CookReturns | kernel/ttycook/TTYCOOK.C:115-155 | In cooked output every 10 has a 13 before it. |
| TtyOut.CookOutput | kernel/ttycook/TTYCOOK.C:115-155 | The buffer made holds a CR before every LF; there is none exactly without memory for it. |
| TtyOut.SentInOrder | kernel/tty/TTY.C:500-582 | Over any run of writes and interrupts what was sent and what is queued is everything written, cooked, in order, once. |
| TtyOut.WriteStarts | kernel/tty/TTY.C:545-582 | A write to an idle port that is ready sends its first 16 bytes, or all, at once; any other write sends nothing. |
| TtyOut.Drains | kernel/tty/TTY.C:500-541 | k interrupts send 16 k bytes or everything. |
| TtyOut.Port.XmitIntr | kernel/tty/TTY.C:500-541 | The linked queue of buffers sends and retires as the function does, and no buffer is lost between queue and free list. |
| TtyOut.Port.Write | kernel/tty/TTY.C:545-582 | A write links its buffer in last and starts an idle transmitter, or fails for want of memory and changes nothing. |
| TtyOut.Port.OnOneList | kernel/tty/TTY.C:500-582 | No buffer is twice on a list or on both. |
| Floppy.SplitUndone | kernel/fdd/FDD.C:1012-1048 | Cylinder, head and sector give the block back exactly while the cylinder fits in 16 bits. |
| Floppy.Capacities | kernel/fdd/FDD.C:964-1011 | With 40 cylinders on the first kind of drive and 80 on the others the sectors per track make 360K, 1.2M, 720K and 1.44M. |
| Floppy.PlanStays | kernel/fdd/FDD.C:1012-1048 | A planned transfer has at least a sector, stays on its track, and without the bounce buffer crosses no page; it is shorter than asked for only where the track or the page ends. |
| Floppy.BounceFits | kernel/fdd/FDD.C:1012-1048 | A bounced transfer fits the one-sector bounce buffer exactly for a request of one sector or the last sector of a track. |
| Floppy.BounceOverflows | kernel/fdd/FDD.C:1012-1048 | Two sectors into a buffer 256 bytes before a page overflow it. |
| Floppy.ReportIsTrue | kernel/fdd/FDD.C:1012-1149 | As many sectors as are reported reach the caller, or come from it, exactly when no bounce buffer is used or only one sector was asked for or left on the track. |
| Floppy.Drive.Op | kernel/fdd/FDD.C:964-1149 | A transfer that succeeds moves the planned sectors once, straight to the caller or through the bounce buffer, and reports their bytes; one that fails moves none; there are at most nine attempts. |
| Floppy.Drive.DeviceRead | kernel/blkcache.c:257-279 | The loop moves every sector asked for to its place, in order, never across a page; on a working drive it succeeds exactly for up to 63 sectors. |
| KernelCache.ClaimedKeeps | kernel/blkcache.c:118-176 | Taking an idle block for a sector keeps cache and device in step exactly when it holds what the device holds, and changes no other sector as users see it. |
| KernelCache.GivenKeeps | kernel/blkcache.c:180-226 | The last put of a block writes it, so that the device has what users see; a driver that answers with a byte count leaves the block marked as changed. |
| KernelCache.GivenFails | kernel/blkcache.c:180-226 | When the write fails, cache and device stay in step exactly when somebody else holds the block or it was not changed. |
| KernelCache.WriteLost | kernel/blkcache.c:118-226 | Fetch, change, a put whose write fails, and a fetch of another sector: the change is gone. |
| KernelCache.RunRefines | kernel/blkcache.c:118-226 | After any run without a failing device the sectors as users see them are those of the same run on a disk, and the device is that disk when nobody holds a block. |
| KernelHolds.FetchIs | kernel/blkcache.c:118-176 | A get adds one holder to the block with the sector; if there is none, the first block from the head on that nobody holds is taken and the head moves behind it. No other block is touched. |
| KernelHolds.HeldStays | kernel/blkcache.c:118-226 | Over any run a block that has been given back less often than it was held keeps its sector and holds what the plain disk would, and its gets and puts add up. |
| KernelCache.KCache.BcGet | kernel/blkcache.c:118-176 | The search of the linked ring gives the cached block, or an idle one that is read, or panics exactly when all are held; a read that answers 0 is reported as success although nobody holds the block. |
| KernelCache.KCache.BcPut | kernel/blkcache.c:180-226 | A held block is given back as `Given` says, and anything else panics; -EIO comes exactly when the last holder's write does not answer 0. |

## Left out

- SchedSteps.StepInv: is about callers that give `task_sch_async` a task on no queue and call `sema_up` from inside; `SchedSteps.AsyncExact` and `SchedSteps.UpExact` say that nothing less will do. That drivers respect this is not part of the model: an interrupt's task is one that has gone through `task_exit`, as `intr_handler` turns interrupts off before it ends the interrupt (kernel/INTR.C:159-167), but a handler that ends it itself with interrupts on could be scheduled again while it runs.
- Sched.Kernel.TaskSchAsync: asks for a task on no queue and not free, for the same reason; the panic for a task without a kernel stack is not modelled.
- Sched.Kernel.SemaUp: asks that the caller is inside, for the same reason; all semaphores of the kernel guard critical sections.
- Sched.Kernel.IdleLoop: an interrupt between choosing a task and giving it the processor is not part of the model.
- Sched.Kernel.TaskStart: gives null where the code panics for want of a slot; the stack is not modelled.
- SchedRuns.BoundedWaiting: asks that nothing of higher priority becomes ready; with strict priority nothing weaker bounds the wait.
- SchedLaws.RunsAgain: the same.
- SchedRuns.SemaphoreRun: the count of a semaphore is an unbounded integer.
- CacheSpec.GetKeeps: does not say which block is handed out nor what it holds; `CacheSpec.GetResult` does.
- BlkCache.Cache.constructor: memory for the blocks is always had.
- BlkCache.Cache.BcGet: does not say what the caller's variable holds when there is no device, which the code leaves as it was.
- BlkCache.Cache.BcPut: asks that a block got to be overwritten has been filled; what an unfilled block would write is not defined by its contents.
- Fat12.MountGood: takes the total of sectors as `f_mount` does, from the start of the disk, although it does not count hidden sectors, so that a volume with hidden sectors loses clusters; the products are not cut to 16 bits.
- Fat12.SetNextView: is about the setter with its index reduced modulo the block size; as written `clus_set_next` does not reduce it, and `Fat12.StoreIndexInBlock` says for which clusters that makes no difference.
- FatVolume.FatVol.ClusSetNext: requires the reduced index or at most 341 clusters, for the same reason.
- FatVolume.FatVol.FobjTrunc: the same.
- FatVolume.FatVol.FobjGetSecAtOffs: leaves out a walk that ends nowhere, behind a chain without an end mark, and one that comes to sector 0xffffffff, which the cache takes for none.
- FatOps.FileTable.FRead: leaves out the same walks, and cluster sizes of 32K and more, which overflow the int in which the code counts; `long` has 32 bits, and the result is not cut to an int.
- FatOps.FileTable.FWrite: asks that offset, size and one cluster together stay within 2^32, where `FatFiles.TargetExact` gives the right number of clusters, that the entry's sector is not one of the file's, and that the file is a chain, which `FatOps.FileTable.ChainKept` shows some writes do not leave it.
- KernelRead.Reader.FatRead: leaves out negative offsets, walks behind a chain without an end mark, and cluster sizes of 32K and more.
- KernelWalk.FatStaysWhole: assumes that no sector exists where the entry of the last cluster points; `KernelWalk.FatStays` does not.
- Paths.PathParseFn: asks that no dot follows the `len` characters to be parsed; its callers pass a whole string or an element that is followed by a slash.
- PathWalk.DirFindPath: is about a tree all of whose directories that a path can reach are good ones.
- TtyCook.RunKeeps: the count of lines is an unbounded integer.
- TtyCook.Cooker.Putc: leaves out the echo.
- TtyOut.CookOutput: a cooked length that does not fit a 16-bit int counts as no memory, and so in `TtyOut.Port.Write`.
- Floppy.Drive.Op: transfers in both directions are alike; which way the bytes go is not modelled.
- KernelCache.RunRefines: is about devices that do not fail; `KernelCache.GivenFails` says what a failing one does.
- Stacks, stack canaries, registers and the memory of a task; the field that records a semaphore's last owner.
- Volumes of more than 0xff0 clusters, which FAT12 does not have.
- Devices of the hosted tools that fail now and then: there a sector exists or it does not.
- The contents of blocks as shared memory: a block's data is a value, and the backward links of the cache rings are not kept.
- `bc_read` and `bc_cache_get` of the kernel's cache.
- Opening, creating and removing files and directories in the hosted tools, device nodes, attributes and timestamps.
- The balance of gets and puts in the hosted directory search, and its result for a path without names, which it leaves unset.
- Reading the root directory as a file.
- The near heap and the C library's own heap.
- Opening and closing a tty, and receiving.
- Executing programs, processes and their memory.
- Hardware initialisation, interrupt controllers, timers, console, formatted output, disassembler and boot loader.
