# xv6 open-file layer (`file.c`) in Dafny

This project models the open-file layer of an xv6-style teaching kernel,
including the `T_CS` inode type that this xv6 variant adds. It has three parts.

- **The open-file table** (`ftable.file[NFILE]`):
  - `filealloc` claims the lowest free slot.
  - `filedup` adds a reference.
  - `fileclose` drops a reference. On the last one it clears the slot, then
    releases the pipe or the inode the slot held.
  - `FileTable` (table.dfy) states these as pure transitions on a sequence of
    slot records.
  - The class `OpenFiles.FTable` (open_files.dfy) runs them in place on an
    `array<File>`, and is proved against the pure transitions.
- **Dispatch on a slot's type**:
  - `fileread`, `filestat` and `filewrite`.
  - The `readable`/`writable` checks.
  - The rule that `off` advances only by a positive result.
  - The `filewrite` loop that splits a write into segments that each fit one
    log transaction. `WriteChunker` (chunker.dfy) states that loop as a pure
    function of what `writei` answers. `FTable.WriteInode` runs it as a
    `while` loop, proved equal to it.
- **`T_CS` direct-block addresses** (cs_address.dfy):
  - A 32-bit slot holds a 24-bit reference number and an 8-bit length.
  - `cs_printinfo` lists the non-zero slots and decodes them.

Calls into the pipe, inode and log layers are not modelled. The class records
each such call as an `Event` in a ghost `trace`, and takes what the call returns
as a parameter:
- `answer` for `piperead`/`readi`;
- `pipeAnswer` for `pipewrite`;
- a function `writei` for the `k`-th `writei` call of a write.

A kernel `panic` is a result, `Panicked(msg)`, with the message the code
passes. It is not a precondition. A handle is the index of a slot.

## Model

| member | source | states |
|---|---|---|
| CsAddress.Decode | file.c:215-218 | `length = addr & 255` is at most 255 and `num = addr >> 8` has at most 24 bits. `num * 256 + length` rebuilds `addr` exactly. |
| CsAddress.Encode | file.c:171-173 | Packing a 24-bit number and an 8-bit length into one slot decodes back to the same pair. |
| CsAddress.EncodeDecoded | file.c:171-173 | Decoding any slot and packing the parts again gives the slot back. |
| CsAddress.DecodeSample | file.c:217-218 | 0x1203 decodes to number 18, length 3. |
| CsAddress.DirectBlockInfo | file.c:199-222 | For a plain file or a `T_CS` inode, there is one line per non-zero slot among the first `NDIRECT`, in slot order, with no zero slot and no slot listed twice. The indirect slot after them is never listed. For a `T_CS` inode each line carries the decoded pair; other types list nothing. |
| FileTable.FirstFree | file.c:34-40 | The result is the lowest index with `ref == 0`. It is none exactly when every slot is held. |
| FileTable.Alloc | file.c:34-42 | Only the lowest free slot changes, and its `ref` becomes 1. A full table is unchanged and gives no handle. Slots stay well formed, and the claimed slot of a well-formed table is untyped. |
| FileTable.Dup | file.c:49-54 | It panics with "filedup" exactly when `ref < 1`. Otherwise that slot gains one reference and nothing else changes. |
| FileTable.Close | file.c:63-81 | It panics with "fileclose" exactly when `ref < 1`. Otherwise it drops one reference. While references remain there is no teardown. The last one makes the slot `ref = 0, FD_NONE` and tears down the snapshot taken before the clear. Nothing else changes. |
| FileTable.DupTimesAddsReferences | file.c:50-52 | `k` dups of a held slot succeed and add exactly `k` references. |
| FileTable.EarlyClosesReleaseNothing | file.c:64-69 | Fewer closes than references only lower the count. None of them releases anything. |
| FileTable.LastCloseReleasesOnce | file.c:64-81 | Closing once per reference frees the slot and runs its teardown exactly once. One more close panics. |
| FileTable.DupsThenClosesBalance | file.c:47-82 | After `k` dups of a fresh slot, the first `k` closes keep it held. Close `k + 1` frees it with the single teardown. |
| FileTable.AllocAtBoundary | file.c:34-39 | A free slot with every lower slot held is the one allocated. |
| FileTable.FillInOrder | file.c:34-40 | When the held slots are a prefix of the table, successive allocations return the following slots in order. |
| FileTable.FillClaims | file.c:34-40 | Those allocations claim exactly those slots and touch no other. |
| FileTable.ReuseAfterClose | file.c:59-82 | In a table whose every slot is held once, allocation fails. After a close, allocation returns the freed slot. |
| FileTable.ExhaustThenReuse | file.c:28-82 | From an empty table, allocations hand out 0, 1, … up to the table size. The next one fails, and after closing `h` the next allocation returns `h`. |
| OpenFiles.FTable.constructor | file.c:16-19 | The table starts with every slot zero and no calls made. |
| OpenFiles.FTable.FileAlloc | file.c:28-43 | The scan over the array leaves exactly the state and the handle of `FileTable.Alloc`. |
| OpenFiles.FTable.FileDup | file.c:47-55 | The array update gives exactly `FileTable.Dup`, including the panic. |
| OpenFiles.FTable.FileClose | file.c:59-82 | The array update gives exactly `FileTable.Close`. The teardown calls join the trace only on the last close. |
| OpenFiles.FTable.FileStat | file.c:86-95 | It returns 0 exactly for an inode, with one `stati` call, and -1 with no call for any other type. |
| OpenFiles.FTable.FileRead | file.c:99-115 | An unreadable slot gives -1 with no call. A pipe passes the pipe's result through. An inode passes the result through and advances `off` only by a positive result. Any other type panics with "fileread". |
| OpenFiles.FTable.FileWrite | file.c:120-165 | An unwritable slot gives -1 with no call. A pipe passes `pipewrite`'s result through. An inode gives the result, final `off` and transactions of `WriteChunker.WriteRun`. Any other type panics with "filewrite". |
| OpenFiles.FTable.WriteInode | file.c:137-162 | The `while` loop leaves the result and `off` that `WriteChunker.WriteFrom` computes, with one begin/write/end transaction per issued segment. No other slot changes. |
| WriteChunker.MaxSegment | file.c:135 | The segment bound is a whole number of 512-byte blocks, at least one. Its blocks counted twice plus four fit in `MAXOPBLOCKS`, and one block more would not. |
| WriteChunker.SegmentsIsCeiling | file.c:137-142 | The segment count of `m` bytes is the ceiling of `m / max`. |
| WriteChunker.Plan | file.c:137-142 | The planned segment list has `Segments(n - i, max)` entries. |
| WriteChunker.PlanShape | file.c:137-142 | Segment `j` starts at `i + j * max` and its length is `min(n - i - j * max, max)`, so it is between 1 and `max`. |
| WriteChunker.WriteRun | file.c:137-162 | The offset never moves back. |
| WriteChunker.WriteRunFollowsPlan | file.c:137-162 | Whatever `writei` answers, the issued segments are a prefix of the plan, and one is issued whenever bytes remain. The result is `n`, -1 or -2 unless the write panics. Returning `n` means `off` grew by exactly the bytes requested. |
| WriteChunker.WriteFromIsPrepend | file.c:137-162 | The loop's state-passing form, started with segments already issued, gives the run that follows them. |
| WriteChunker.MoreThanOneSegment | file.c:138-140 | A second segment exists only when more than `max` bytes remain. |
| WriteChunker.CompleteWrite | file.c:137-162 | When every `writei` writes its whole segment, the write returns `n`, advances `off` by `n`, and issues exactly the planned segments, ceiling of `n / max` of them. |
| WriteChunker.StopsAt | file.c:144-161 | At the first segment `j` whose answer `r` is not its length, the write stops after segment `j`. `off` is advanced by the earlier full segments plus `r` if positive. The result is -2 for -2, -1 for another negative value, and a "short filewrite" panic for a non-negative answer other than the segment length. |

## Left out

- Locking: `ftable.lock` and the inode sleeplocks (`acquire`/`release`, `ilock`/`iunlock`) are concurrency. Each operation is one sequential step on the table.
- `fileinit` only initialises the lock. It is replaced by the constructor's zero-filled table.
- Pipe, inode and log internals (`piperead`, `pipewrite`, `pipeclose`, `readi`, `writei`, `stati`, `iput`, `begin_op`, `end_op`) are not part of this model. They appear as trace events, and their results are parameters.
- Buffer contents: the model keeps each call's buffer position and length, not the bytes moved.
- `cprintf` output of `filewrite` and `cs_printinfo`, including the file name, inode number, size and type-label lines, is console formatting. `DirectBlockInfo` returns the listed lines instead of printing them.
- `devsw` is declared in file.c but never used there, so no device path is modelled.
- `NFILE` and `MAXOPBLOCKS` are defined outside file.c. They are parameters: the constructor's size, and `FileWrite`'s `maxOpBlocks`, which must be at least 6 so that the segment bound is positive.
- `filealloc` returns a pointer into the table; the model returns the slot index.
- `filealloc` sets only `ref`; it does not also reset the slot's type to `FD_NONE`. The model follows the code. `FileTable.Alloc` proves that, in a well-formed table, the claimed slot is already `FD_NONE`.
- Machine integers: `ref`, `off` and the loop counter are unbounded in the model. A 32-bit overflow of `ref` or of the unsigned `off` is not modelled.
- OpenFiles.FTable.WriteInode: its ghost trace gains the transactions of the issued segments where the write ends, not one by one inside the loop. The final trace, their order and every other effect are as in the code.
- CsAddress.Decode: the reconstruction `num * 256 + length == addr` is stated in 32-bit arithmetic rather than over unbounded integers. The bounds on `num` and `length` rule out wrap-around.
