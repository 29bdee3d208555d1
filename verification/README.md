# TEKFLASH verification model

A Dafny model of the parts of TEKFLASH that decide which bytes end up where: the archive selection and
its two tree walks, the encrypted envelope, the concurrent copy pipeline and its buffer pool, the backup
and flash loops, verify-after-write, the session protocol between worker and UI, and the key dispatcher
that guards flashing.

`dafny verify dfyconfig.toml` checks the whole project.

## How the model is built

- **Archive** (`Paths`, `Selection`, `FileTree`, `ArchiveWalk`, `ArchiveTheorems`, `ArchiveOrder`,
  `ArchiveAbort`, `TotalWalk`, `TarTree`). A path is the sequence of names below the file-system root. The file system is
  a stable tree; the children of a directory are a map, and a *listing* says in which order `read_dir`
  yields their names. Each node carries how its system calls end: clear, with an error the walk skips, or
  with one that aborts it. Globs are an arbitrary predicate on relative paths. The walkers are methods
  over a mutable sink and are proved equal to functions, about which the theorems are stated.
- **Envelope** (`LittleEndian`, `Envelope`, `EnvelopeTheorems`). AEAD and key derivation are function
  parameters. Round trip assumes that opening inverts sealing (section 2.8 of RFC 8439); integrity assumes
  that under the derived key nothing opens but the frames sealed for the plaintext. `IdealAeadExists` shows
  the assumptions are consistent. The random salt is a parameter.
- **Pipeline** (`Bits`, `BufferPool`, `Pipeline`, `PipelineTheorems`). Reader task, bounded channel, writer
  task and pool are an interleaved step system: each call a task makes is one step, reads and writes may be
  short, any of them may fail, and dropping a buffer may find the pool locked.
- **Verify** (`Streams`, `Verify`, `SampledRanges`). Streams make short reads and fail according to an
  arbitrary schedule. Masking is defined on binary digits.
- **Backup and flash loops** (`BackupLoop`) over the same streams.
- **Session** (`Session`). Worker sends, counter updates and the steps inside one poll interleave freely.
- **Keys** (`KeyDispatch`, `FlashSafety`, `KeyLaws`). The handlers update a mutable state object and are
  proved equal to functions; safety is stated over every trace of keys, and which step starts or changes what
  is stated as exact conditions. What the outside answers to a key (devices,
  browser, codec choice, file sizes, fast paths) is arbitrary.

## Findings

- With a glob that matches a directory and not its files, pruning is stricter than `is_included`
  (`GlobCanPruneSelectedFile`). `PruningEqualsFiltering` gives the exact condition: the file is included
  and every directory above it that a glob hits has a checked path at or below it.
- The documentation of `archive_tree` calls the excludes globs; the code knows substrings and `*suffix`.
  A suffix pattern prunes files it does not match (`SuffixPrunesUnmatchedFile`).
- The layout comment in `crates/tekflash-core/src/pipeline/crypto.rs` says the final frame has its high bit
  set; the code puts a flag byte into the nonce and the associated data instead. The model follows the code.
- An envelope cut down to its header decrypts to the empty plaintext. `EnvelopeIntegrity` states exactly
  which bodies decrypt, for every value of the frame-size field, which no tag protects.
- The refresh key `r` does not clamp the selected index. After it, the way through the confirm modal can
  end in a flash session whose destination is the empty path (`RefreshCanTargetNoDevice`);
  `StepMovesSelection` says exactly when the selection leaves the list and when it comes back, and
  `FlashWritesPickedDevice` what every flash session writes to in either case.
- The documentation of `sampled_ranges` says the end of the device is always included. The code adds the
  tail only past two stripes: 60 percent of 10 bytes never samples the last byte (`EndNotAlwaysSampled`),
  and neither does `VerifyPlan::sampled(2 MiB, 100)` (`FullShareReadsHalf`). `EndSampled` is the exact
  condition for every plan; up to 100 percent, between one and two stripes, it is that the target passes
  1 MiB and the generator's first draw falls past the first MiB.
- The lengths of a plan add up to the target, but repeated stripes count twice: `VerifyPlan::sampled(2 MiB,
  100)` reads the first MiB twice and the second never (`FullShareReadsHalf`). `SampledBytes` says for every
  byte of every plan when it is read.
- Fillers of a plan of up to 100 percent are equal or disjoint (`FillersAlign`). A plan of 200 percent,
  which `VerifyPlan::sampled` clamps but the public fields allow, can have fillers that overlap partially
  (`FillersCanOverlap`).
- `append_dir`, `append_path_with_name` and `append_data` report errors that are skipped only when they wrap
  an `io::Error` that is skippable; any other error of theirs aborts the walk.
- In `is_included` the exclude branch of the second ancestor loop never fires, and neither does the
  `len == 0` branch of `sampled_ranges`; both are asserted unreachable in the methods that model them.

## Model

| member | source | states |
|---|---|---|
| Paths.SortNames | crates/tekflash/src/tui/progress_runner.rs:628-629 | sorting siblings gives an ordered permutation of the listing |
| Paths.SortForgetsOrder | crates/tekflash/src/tui/progress_runner.rs:628-629 | two listings with the same names sort to the same sequence |
| Selection.IsExplicitlyExcluded | crates/tekflash-core/src/archive/selection.rs:73-86 | the loop answers whether the nearest marked ancestor-or-self is excluded, exclude winning a tie |
| Selection.IsIncluded | crates/tekflash-core/src/archive/selection.rs:38-71 | the two loops equal the one-pass nearest-mark rule, with the glob check and the empty-selection rule; the second exclude branch is dead |
| Selection.DocumentedRule | crates/tekflash-core/src/archive/selection.rs:7-13 | the nearest-mark rule is the documented `Fully` rule, both directions |
| Selection.GlobSeesRelative | crates/tekflash-core/src/archive/selection.rs:39-46 | a glob sees the path below the source root, and the whole path elsewhere |
| ArchiveWalk.ShouldKeep | crates/tekflash/src/tui/progress_runner.rs:570-577 | an entry is kept when selected, or when it is a directory with a checked path at or below it |
| ArchiveWalk.Sink.Append | crates/tekflash/src/tui/progress_runner.rs:694-707 | hasher and byte counter move in lockstep with the entries: the hash input is the concatenated contents and the counter its length |
| ArchiveWalk.WalkAndArchive | crates/tekflash/src/tui/progress_runner.rs:528-690 | for any faults, the recursive walk appends the entries of the specified walk and fails when it does; `ArchiveAbort` says on the tree alone when that is and which entries they are |
| ArchiveWalk.ArchiveChildren | crates/tekflash/src/tui/progress_runner.rs:624-643 | the loop over sorted children stops at the first error and keeps what was appended before it |
| ArchiveTheorems.WalkEmits | crates/tekflash/src/tui/progress_runner.rs:540-690 | an entry is emitted exactly when it is the entry of a node in the tree all of whose chain passes the checks (trees with skippable faults included) |
| ArchiveTheorems.WalkRunsToEnd | crates/tekflash/src/tui/progress_runner.rs:505-510 | without an aborting error the walk succeeds, whatever it skips |
| ArchiveTheorems.AncestorKept | crates/tekflash/src/tui/progress_runner.rs:564-577 | every directory above a selected path is kept, unless a glob hits it and no checked path lies at or below it |
| ArchiveTheorems.PruningEqualsFiltering | crates/tekflash/src/tui/progress_runner.rs:570-643 | exact condition under which the pruning walk archives a file, against the pure filter `is_included`: outside the system metadata, included, and no directory above it pruned by a glob |
| ArchiveTheorems.WalkIsFilter | crates/tekflash/src/tui/progress_runner.rs:570-643 | with no globs, or globs descendants inherit, the walk archives exactly the included files |
| ArchiveTheorems.DirectoriesArchived | crates/tekflash/src/tui/progress_runner.rs:564-607 | exact condition under which a directory gets an entry: a path is checked at or below it, or it is included and not pruned |
| ArchiveTheorems.MetadataByFirstName | crates/tekflash/src/tui/progress_runner.rs:473-501 | the first component below the source root alone decides what is system metadata, against the list of names |
| ArchiveTheorems.GlobCanPruneSelectedFile | crates/tekflash/src/tui/progress_runner.rs:570-577 | a concrete tree and glob where an included file is pruned |
| ArchiveAbort.WalkFailsIff | crates/tekflash/src/tui/progress_runner.rs:550-690 | the walk returns an error exactly when, on the tree, it gets through passable listed directories to a node with an error it does not skip |
| ArchiveAbort.AbortKeepsPrefix | crates/tekflash/src/tui/progress_runner.rs:528-690 | for any faults, the archive holds exactly the entries of reached nodes that no failure comes before in path order |
| ArchiveAbort.MetadataSkipped | crates/tekflash/src/tui/progress_runner.rs:543-548 | nothing at or below a top-level system directory is archived, whatever fails |
| ArchiveOrder.WalkInOrder | crates/tekflash/src/tui/progress_runner.rs:598-643 | entries come in strictly increasing path order, whatever fails |
| ArchiveOrder.OneEntryAfterItsParents | crates/tekflash/src/tui/progress_runner.rs:598-643 | each path gets one entry, after the entries of all directories above it |
| ArchiveOrder.ReproducibleArchive | crates/tekflash/src/tui/progress_runner.rs:624-643 | two runs over the same tree with different listing orders have the same outcome |
| TotalWalk.PrecomputeTotalBytes | crates/tekflash/src/tui/progress_runner.rs:432-471 | the explicit-stack loop terminates and computes the recursive total, for any selection and faults |
| TotalWalk.TotalAllPermuted | crates/tekflash/src/tui/progress_runner.rs:461-465 | the total of a directory does not depend on the order its entries are pushed |
| TotalWalk.StreamedWithinTotal | crates/tekflash/src/tui/progress_runner.rs:432-690 | the streamed bytes never exceed the pre-walk total and equal it when no call fails |
| TotalWalk.TotalIsMendedStream | crates/tekflash/src/tui/progress_runner.rs:432-471 | for every tree the total is what the walk would stream if opening and reading never failed and other errors were skipped |
| TotalWalk.ArchiveTree | crates/tekflash/src/tui/progress_runner.rs:384-429 | the archive worker's count is the length of the hashed stream, at most the announced total, equal to it on an error-free tree; it fails exactly when the walk gets to an error it does not skip |
| TarTree.WalkTree | crates/tekflash-core/src/archive/tar.rs:16-52 | the recursive walk appends the specified entries and fails when the specified walk does; the next rows say which entries those are and when it fails |
| TarTree.TarFailsIff | crates/tekflash-core/src/archive/tar.rs:16-52 | the walk fails exactly when it gets to a node on which a call fails; no error is skipped |
| TarTree.TarHolds | crates/tekflash-core/src/archive/tar.rs:16-52 | for any faults, the archive holds exactly the entries of reached nodes visited before the first failure, each with its node's kind and bytes |
| TarTree.TarEntriesHold | crates/tekflash-core/src/archive/tar.rs:30-49 | on an error-free tree every file entry holds the file's whole contents, and links and directories are entered as such |
| TarTree.TarInOrder | crates/tekflash-core/src/archive/tar.rs:36-41 | entries come in the order directories list their names, each directory before what is in it |
| TarTree.TarEntriesDistinct | crates/tekflash-core/src/archive/tar.rs:36-41 | no path gets two entries |
| TarTree.ArchivedIffChainFree | crates/tekflash-core/src/archive/tar.rs:16-52 | a path other than the root is archived exactly when no path on its chain matches an exclude |
| TarTree.SubstringExcludesFilter | crates/tekflash-core/src/archive/tar.rs:59-66 | without `*` patterns the chain condition collapses to the path alone |
| TarTree.MatchMeans | crates/tekflash-core/src/archive/tar.rs:59-66 | a pattern matches a part of the rendered path, a `*` pattern its end, both directions |
| TarTree.NameExcludesSubtree | crates/tekflash-core/src/archive/tar.rs:59-66 | a pattern that is a component's name excludes everything at or below it |
| TarTree.SuffixPrunesUnmatchedFile | crates/tekflash-core/src/archive/tar.rs:59-66 | a concrete `*suffix` pattern that prunes a file it does not match |
| LittleEndian.LeRoundTrip | crates/tekflash-core/src/pipeline/crypto.rs:130-133 | reading back little-endian bytes gives the number |
| LittleEndian.LeBytesOfFromLe | crates/tekflash-core/src/pipeline/crypto.rs:130-133 | every byte string is the encoding of the number it reads as |
| LittleEndian.FromLeAppend | crates/tekflash-core/src/pipeline/crypto.rs:130-133 | the last byte is the most significant |
| Envelope.EncryptPassword | crates/tekflash-core/src/pipeline/crypto.rs:58-111 | the envelope is the header followed by the sealed frames, or the key-derivation error |
| Envelope.WriteFrames | crates/tekflash-core/src/pipeline/crypto.rs:83-110 | the frame loop appends one sealed frame per started 16 KiB, counted from 0, the last one flagged |
| Envelope.DecryptPassword | crates/tekflash-core/src/pipeline/crypto.rs:114-171 | the checks in order with their errors, then the opened frames or the number of the frame that fails |
| Envelope.ReadFrames | crates/tekflash-core/src/pipeline/crypto.rs:140-170 | the frame loop opens every frame from the end of the header on |
| EnvelopeTheorems.HeaderFields | crates/tekflash-core/src/pipeline/crypto.rs:72-81 | every header field reads back as it was written |
| EnvelopeTheorems.DecryptRejects | crates/tekflash-core/src/pipeline/crypto.rs:118-129 | exactly which envelopes are rejected for length, magic, version and scheme, in this order |
| EnvelopeTheorems.RoundTrip | crates/tekflash-core/src/pipeline/crypto.rs:58-171 | decrypting an encryption gives the plaintext, for every length |
| EnvelopeTheorems.CorrectRoundTrip | crates/tekflash-core/src/pipeline/crypto.rs:58-171 | when opening inverts sealing, every envelope decrypts to its plaintext, and encryption fails only with the key derivation |
| EnvelopeTheorems.EnvelopeLength | crates/tekflash-core/src/pipeline/crypto.rs:72-110 | the length is 40 plus the plaintext plus 16 per started 16 KiB |
| EnvelopeTheorems.NoncesDistinct | crates/tekflash-core/src/pipeline/crypto.rs:185-190 | nonces are equal only for the same counter and flag, below 2^64 frames |
| EnvelopeTheorems.NonceAndAad | crates/tekflash-core/src/pipeline/crypto.rs:92-96 | the associated data is the little-endian counter and the flag byte, the nonce the same with three zero bytes |
| EnvelopeTheorems.OpenedBodyIsHonest | crates/tekflash-core/src/pipeline/crypto.rs:140-170 | whatever the frame size, a run of frames that opens from counter i is the honest body from frame i and gives the plaintext from there |
| EnvelopeTheorems.EnvelopeIntegrity | crates/tekflash-core/src/pipeline/crypto.rs:114-171 | for every value of the frame-size field, a body decrypts exactly when it is empty, or the honest body and the field cuts it where the writer did; then to nothing or the plaintext |
| EnvelopeTheorems.BodyIntegrity | crates/tekflash-core/src/pipeline/crypto.rs:114-171 | under an honest header a body decrypts exactly when it is empty or the honest body, and then to nothing or the plaintext |
| EnvelopeTheorems.ReservedBytesIgnored | crates/tekflash-core/src/pipeline/crypto.rs:118-135 | the two reserved header bytes never change the outcome |
| EnvelopeTheorems.IdealAeadExists | crates/tekflash-core/src/pipeline/crypto.rs:97-105 | the assumptions of the integrity theorem are consistent |
| BufferPool.AlignUpIsLeast | crates/tekflash-core/src/pipeline/buffer.rs:138-140 | `align_up` is the least multiple of the alignment that is large enough |
| BufferPool.BufferPool.Acquire | crates/tekflash-core/src/pipeline/buffer.rs:116-128 | reuses the buffer released last, or allocates when none is free |
| BufferPool.BufferPool.DropBuffer | crates/tekflash-core/src/pipeline/buffer.rs:65-87 | returns the allocation to the free list when it obtains the lock, and deallocates it otherwise |
| BufferPool.ReleasedIsReused | crates/tekflash-core/src/pipeline/buffer.rs:65-128 | the buffer released last is the next one acquired, and nothing else changes |
| PipelineTheorems.StreamStep | crates/tekflash-core/src/pipeline/reader.rs:27-47 | every step keeps: written, being written, queued and being sent bytes are the bytes read; the output stays a prefix |
| PipelineTheorems.HoldersStep | crates/tekflash-core/src/pipeline/buffer.rs:65-128 | every step moves an allocation from one place to one other; only allocation makes a new one |
| PipelineTheorems.MemoryStep | crates/tekflash-core/src/pipeline/buffer.rs:97-128 | every step keeps: the allocations made and not deallocated are the free and used ones, at most the larger of the initial pool and channel capacity plus 2, pop and allocate being separate steps |
| PipelineTheorems.ExclusiveOwnership | crates/tekflash-core/src/pipeline/buffer.rs:16-26 | in every reachable state each allocation is in exactly one place, and allocations minus deallocations are bounded |
| PipelineTheorems.NoDeadlock | crates/tekflash-core/src/pipeline/writer.rs:34-45 | every unfinished state has an enabled step |
| PipelineTheorems.StepUsesWork | crates/tekflash-core/src/pipeline/reader.rs:27-47 | every step decreases a natural-number measure |
| PipelineTheorems.EveryRun | crates/tekflash-core/src/pipeline/reader.rs:23-49 | all invariants hold along every interleaving, whose length is at most 7 times the source plus 9 |
| PipelineTheorems.MaximalRun | crates/tekflash-core/src/pipeline/writer.rs:30-47 | a run that cannot go on has both tasks ended, no buffer in flight, output a prefix; if both succeed, output and totals are the source's |
| PipelineTheorems.VerdictsAreExact | crates/tekflash-core/src/pipeline/writer.rs:34-45 | at the end of every run each task reports success exactly when none of its reads, writes or flush failed |
| PipelineTheorems.ErrorFreeRunsCopy | crates/tekflash-core/src/pipeline/writer.rs:30-47 | without I/O failures every maximal run copies the source |
| Streams.ByteSource.Read | crates/tekflash-core/src/pipeline/verify.rs:186-196 | the contract of `Read::read` the loops rely on: short reads, no byte skipped, zero only at the end |
| Verify.CommonPrefixIs | crates/tekflash-core/src/pipeline/verify.rs:70-74 | the common-prefix length is the first offset where two streams disagree or one ends |
| Verify.ReadExactOrEof | crates/tekflash-core/src/pipeline/verify.rs:186-196 | fills the buffer with the next bytes, short only at the end of the stream |
| Verify.FirstDiff | crates/tekflash-core/src/pipeline/verify.rs:198-200 | the first index of disagreement, or agreement on the common length |
| Verify.VerifyFull | crates/tekflash-core/src/pipeline/verify.rs:77-116 | passes exactly on equal streams; otherwise reports the common-prefix length and the bytes compared, for any block size and schedule; fails only on an I/O error |
| Verify.BytesComparedIs | crates/tekflash-core/src/pipeline/verify.rs:88-96 | a failed comparison has read whole blocks just past the mismatch, or all of the shorter stream |
| Verify.VerifyFullByHash | crates/tekflash-core/src/pipeline/verify.rs:121-147 | the verdict compares the digest of every device byte, ignoring letter case |
| Verify.DigestInAnyCase | crates/tekflash-core/src/pipeline/verify.rs:140-141 | the expected digest is accepted exactly when it is the digest with any letters in upper case |
| Verify.HashVerdict | crates/tekflash-core/src/pipeline/verify.rs:118-120 | ignoring the case of the expected digest equates no two digests, so the hash verdict differs from the byte verdict exactly on a collision |
| SampledRanges.SampledRanges | crates/tekflash-core/src/pipeline/verify.rs:152-184 | the loop terminates for every plan and seed and computes the specified plan; the empty-stripe branch is dead |
| SampledRanges.PlanGuarantees | crates/tekflash-core/src/pipeline/verify.rs:149-184 | sorted, non-empty, in bounds, contains the head (and the tail past two stripes), and sums to between the target and its bound |
| SampledRanges.FillCovers | crates/tekflash-core/src/pipeline/verify.rs:167-181 | the stripes never fall short of the target and pass it by less than one stripe, each in bounds |
| SampledRanges.FillersFollowGenerator | crates/tekflash-core/src/pipeline/verify.rs:169-181 | how the seed enters a plan: with its lowest bit set it starts the generator, whose states modulo the size pick the blocks |
| SampledRanges.ConstructorSets | crates/tekflash-core/src/pipeline/verify.rs:52-59 | the constructor takes the size as seed and the nearest percentage from 1 to 100 |
| SampledRanges.SampledBytes | crates/tekflash-core/src/pipeline/verify.rs:152-184 | for every plan and byte: it is sampled exactly when it is in the first stripe, past two stripes in the last one, or in a block the generator draws |
| SampledRanges.EndSampled | crates/tekflash-core/src/pipeline/verify.rs:149-181 | the exact condition for the last byte, for every plan; up to 100 percent in terms of the first draw alone |
| SampledRanges.EndNotAlwaysSampled | crates/tekflash-core/src/pipeline/verify.rs:149-165 | a concrete plan, for every seed, that never samples the last byte |
| SampledRanges.FullShareReadsHalf | crates/tekflash-core/src/pipeline/verify.rs:52-59 | 100 percent of 2 MiB, as the constructor builds it, sums to 2 MiB but samples only the first MiB |
| SampledRanges.TargetIsShare | crates/tekflash-core/src/pipeline/verify.rs:156-157 | up to 100 percent the target stays within the device, and without wrap-around it is the stated share |
| SampledRanges.FillersAlign | crates/tekflash-core/src/pipeline/verify.rs:167-181 | fillers of any plan up to 100 percent, or with a target of at least 1 MiB, start at MiB multiples and are pairwise identical or disjoint |
| SampledRanges.FillersCanOverlap | crates/tekflash-core/src/pipeline/verify.rs:167-181 | a concrete plan above 100 percent whose fillers overlap partially |
| Bits.MaskedBlocksAlign | crates/tekflash-core/src/pipeline/verify.rs:174 | of the mask alone, for any two offsets: masked blocks are equal or disjoint for all offsets exactly when the block length is a power of two |
| Bits.MaskRoundsDown | crates/tekflash-core/src/pipeline/verify.rs:174 | masking by a power of two minus one rounds down to its multiple |
| BackupLoop.DoBackup | crates/tekflash/src/tui/progress_runner.rs:132-204 | encoder and hasher got the source's first `bytes_in` bytes, within a known total; a read error is tolerated exactly when it is an end-of-device one within one buffer of the total; what every failure leaves behind |
| BackupLoop.CountingChain.Read | crates/tekflash/src/tui/progress_runner.rs:237-245 | the peeked head chained to the file delivers and counts the file's bytes in order |
| BackupLoop.DoFlashRaw | crates/tekflash/src/tui/progress_runner.rs:210-296 | a successful flash of an uncompressed image wrote, hashed and counted the whole image; on an error the device holds a prefix |
| Session.BackupProgress.Poll | crates/tekflash/src/tui/progress_runner.rs:787-851 | applies events up to the first terminal one, then the live counter; reports whether anything was received or changed |
| Session.DrainShowsLast | crates/tekflash/src/tui/progress_runner.rs:790-842 | after a drain: the last count, file, directory and total that the taken events carry, and the status the last one brings |
| Session.DrainTakes | crates/tekflash/src/tui/progress_runner.rs:790-842 | a drain takes the events up to the first terminal one and leaves the rest |
| Session.DrainRate | crates/tekflash/src/tui/progress_runner.rs:797-812 | the rate's numerator is the difference of the last two ticks, across polls |
| Session.StepKeeps | crates/tekflash/src/tui/progress_runner.rs:96-130 | every worker or UI step keeps queued counts rising from the last tick, the shown output count non-decreasing and a final status fixed |
| Session.CountsBound | crates/tekflash/src/tui/progress_runner.rs:798-806 | queued `bytes_in` values do not decrease and are at least the UI's last tick |
| Session.RunKeeps | crates/tekflash/src/tui/progress_runner.rs:787-851 | along every interleaving the shown count never decreases and status changes at most once |
| Session.EverySession | crates/tekflash/src/tui/progress_runner.rs:787-851 | in every reachable state the rate numerator is not negative, and a final status is the worker's own result: the hash it sent and the bytes all its steps consumed and produced |
| Session.ReceivesAreDrain | crates/tekflash/src/tui/progress_runner.rs:790-842 | an undisturbed poll of the step system is the drain that the poll method computes |
| Session.NextPollDelivers | crates/tekflash/src/tui/progress_runner.rs:817-839 | once the worker has sent its result the next poll delivers it |
| KeyDispatch.AppState.HandleHomeKey | crates/tekflash/src/tui/mod.rs:193-255 | the home keys change the state as specified, and nothing else |
| KeyDispatch.AppState.HandleActionPickerKey | crates/tekflash/src/tui/mod.rs:257-294 | the action picker's keys and where its Enter leads |
| KeyDispatch.AppState.HandleCodecPickerKey | crates/tekflash/src/tui/mod.rs:296-345 | Esc returns to the same action in the action picker, Enter opens the save browser |
| KeyDispatch.AppState.HandleBrowserKey | crates/tekflash/src/tui/mod.rs:347-465 | picking a file starts a backup or archive at once, and a flash only opens the confirm modal |
| KeyDispatch.AppState.HandleProgressKey | crates/tekflash/src/tui/mod.rs:467-505 | detach, dismiss a session that is done, cycle |
| KeyDispatch.AppState.HandleConfirmKey | crates/tekflash/src/tui/mod.rs:507-568 | focus keys, cancel, and the session a confirmed Enter pushes; `KeyLaws.ConfirmedEnterFlashes` says that it is pushed |
| KeyDispatch.AppState.DispatchKey | crates/tekflash/src/tui/mod.rs:166-191 | Ctrl-C quits; otherwise the open screen with the highest priority gets the key |
| FlashSafety.AlwaysOneScreen | crates/tekflash/src/tui/mod.rs:166-191 | along every trace at most one of session view, confirm, browser, codec and action picker is open, and indices are in range |
| FlashSafety.BrowserAddsCopy | crates/tekflash/src/tui/mod.rs:375-446 | a backup or archive session writes the picked file, reads the device of the browser's purpose and has that device's size as total |
| FlashSafety.CopyReadsPickedDevice | crates/tekflash/src/tui/mod.rs:257-446 | in every trace a backup or archive reads the device picked first, over an unchanged device list, and writes only the picked file |
| FlashSafety.StepOpensConfirm | crates/tekflash/src/tui/mod.rs:448-454 | a confirm modal appears only by picking its file in a browser opened to flash its device, with the focus on Cancel |
| FlashSafety.StepMovesFocus | crates/tekflash/src/tui/views/confirm.rs:59-64 | the focus reaches Confirm only by a focus key pressed on the same modal |
| FlashSafety.StepStartsFlash | crates/tekflash/src/tui/mod.rs:520-563 | a flash session starts only by Enter on a confirm modal whose focus is Confirm |
| FlashSafety.FlashNeedsConfirmation | crates/tekflash/src/tui/mod.rs:507-568 | every flash session of every trace is preceded by the five choices in order, over an unchanged device list, and has their file and device |
| FlashSafety.StepMovesSelection | crates/tekflash/src/tui/mod.rs:221-252 | from every state: the selection leaves the list exactly at a refresh by `r` with a shorter list, and comes back exactly at `a`, at a refresh long enough or empty, or at a step up from just past the end |
| FlashSafety.FlashWritesPickedDevice | crates/tekflash/src/tui/mod.rs:540-547 | every flash session writes the device listed at the selection when its action picker was opened, if the selection was on the list then, and the empty path otherwise |
| FlashSafety.RefreshCanTargetNoDevice | crates/tekflash/src/tui/mod.rs:249-252 | for any two devices, a key sequence with a shrinking refresh that starts a flash session with an empty destination |
| KeyLaws.ConfirmedEnterFlashes | crates/tekflash/src/tui/mod.rs:520-563 | Enter on a focused confirm modal always starts the flash of its file and device |
| KeyLaws.FlashStartsIff | crates/tekflash/src/tui/mod.rs:507-568 | a flash session starts exactly at such an Enter |
| KeyLaws.CopyStartsIff | crates/tekflash/src/tui/mod.rs:375-446 | a backup or archive starts exactly when a file is picked for it |
| KeyLaws.FlashPickAsks | crates/tekflash/src/tui/mod.rs:448-454 | a file picked for a flash opens the modal with the focus on Cancel and starts nothing |
| KeyLaws.QuitsIff | crates/tekflash/src/tui/mod.rs:166-205 | exactly which keys end the application |
| KeyLaws.RefreshIff | crates/tekflash/src/tui/mod.rs:221-252 | exactly which keys replace the device list, and where the selection goes |
| KeyLaws.HelpIff | crates/tekflash/src/tui/mod.rs:193-209 | exactly which keys toggle or close the help |
| KeyLaws.KeysKeepSessions | crates/tekflash/src/tui/mod.rs:166-568 | a key adds a session at the end or removes the viewed one once it is done, and changes no other |
| KeyLaws.EscGoesBack | crates/tekflash/src/tui/mod.rs:257-354 | Esc leaves every screen for the one before it and starts nothing |
| KeyLaws.CodecPickerReopens | crates/tekflash/src/tui/mod.rs:257-312 | Esc in the codec picker and Enter lead back to the same picker |
| KeyLaws.TabCycles | crates/tekflash/src/tui/mod.rs:240-248 | Tab visits all sessions in order and returns home |
| KeyLaws.EveryDeviceCanBeFlashed | crates/tekflash/src/tui/mod.rs:193-563 | every listed device can be flashed with any file, by a key sequence given in full |
| KeyLaws.EveryDeviceCanBeCopied | crates/tekflash/src/tui/mod.rs:193-446 | every listed device can be backed up or archived to any file |

## Left out

- ArchiveWalk.WalkAndArchive: does not model progress ticks, whose timing is a wall clock, nor how the tar builder chunks a file; a file's bytes are hashed and counted in one go.
- ArchiveWalk.Sink.Append: a file whose read fails has an entry with the bytes read so far; the tar bytes that follow a header with the full size are not modelled.
- Entries that `read_dir` itself reports as errors, which both walks drop, are absent from the tree.
- Trees that change between the two walks, and a source root that is itself a symbolic link.
- Mounting the source of an archive, and the codecs: encoder and sink are one byte sink.
- BackupLoop.DoFlashRaw: does not model decoders, because they are foreign; the loop is the one for an uncompressed image.
- Envelope.DecryptPassword: the shift by a header's frame-size field wraps at 64 as in an optimised build; a debug build panics instead.
- Envelope.EncryptPassword: sealing never fails, because frames are far below the length limit of the AEAD.
- The pump loops of reader and writer appear only as the steps they take, because their meaning lies in the interleaving; the pool also has an in-place class, `BufferPool.BufferPool`.
- Raw memory and its layout: an allocation is a number, its contents are the bytes of the block.
- Flushing of the codec's trailers, `fsync` and cache bypass.
- SampledRanges.SampledRanges: the product `total_bytes * sample_pct` wraps at 64 bits as in an optimised build; a debug build panics.
- Session.BackupProgress.Poll: does not model rates, elapsed times and the joined thread; the rate's numerator is kept as an integer.
- KeyDispatch.AppState.HandleBrowserKey: the movement and typing inside the file browser change nothing the model keeps; what Enter picks is arbitrary.
- KeyDispatch.AppState.HandleCodecPickerKey: the cursor and level keys change nothing the model keeps; the chosen codec and level are arbitrary.
- Rendering, themes, command line, device enumeration, manifests and logging.
