# AdaptiveSync: a verified model

AdaptiveSync keeps files in step between a C++ server and a Rust client. A client negotiates a transfer mode per file,
uploads or downloads whole files, or runs a delta sync: it signs the blocks of its file, the server asks for the blocks
whose signatures differ, and the client sends those. The server collects blocks in `<path>.tmp` and publishes the file
by rename. Paths are guarded by reference-counted reader/writer locks shared by all session threads.

This project models that core in Dafny and proves what holds over all files, all byte streams, all schedules and all runs.

| file | what it models |
|---|---|
| `Bytes`, `Blocks` | octets, machine integers, big-endian fields; tiling a file and laying blocks over a file |
| `Adler32`, `Sha256`, `Sha256Code` | the two block hashes: RFC 1950, FIPS 180-4, and the loops that compute them |
| `Sha256Constants`, `Sha256Vectors` | what the parts and constants of SHA-256 are, and two known digests computed round by round |
| `Wire`, `Sockets`, `ZeroCopy` | the two frame codecs, the short-read/short-write loops, the download path |
| `DeltaSync` | signatures, comparison, request, answer: what the peers compute for each other |
| `Storage`, `ClientFiles` | the server's and the client's files: temp names, positioned writes, rename |
| `Server`, `UploadSession`, `DownloadSession`, `DeltaSession`, `BlockIntegrity` | one connection as a function of the frames received, and its upload, download, sync and integrity laws |
| `Session` | the session and delta-sync objects, method by method, proved against `Server` |
| `FileMutexMachine`, `FileMutexRefinement`, `FileMutexSharing`, `FileMutexProgress`, `FileMutex` | the lock table: interleaved machine, refinement, sharing, progress, object |
| `LockedFiles` | lock table and store together |
| `ReplyMatching` | client and server over two FIFO channels: the calls of the client, `sync_file` included |

The strong hash is a parameter `H`, an arbitrary function from octets to strings. Nothing is assumed about it: where a
result needs hashes to tell blocks apart, it says "or here are two different blocks with equal hashes". Answers of the
clock, the file system and the sockets are parameters too (`Env`, `Faults`, scripts of `Outcome`).

## Where the code and its description part ways

The model follows the code. The members named in brackets state exactly when the intended property holds, or give a
concrete failing run.

- The README of the repository says that only changed blocks travel and the server merges them into its copy. The blocks
  that are sent are indeed enough for that (`DeltaSuffices`), but the temp file starts out empty instead of being a copy
  of the old file, so unsent blocks come out as zeros, or as whatever an unfinished sync left there
  (`PublishedEqualsClientIff`, `SyncOutcome`, `TwoSyncs`). `WrongFilePublished` gives, for every block size above one and
  every hash, two versions of a file for which a sync reports success and publishes something else.
- A sync is finalised only by a block shorter than the negotiated size (`Finalisation`, `FirstSyncOutcome`). In all other
  cases `delta_sync_upload` waits for ever for a completion; `sync_file` also waits for ever when the server has no such
  file, because it then tries to download it (`CallReturnsIff`, `SyncFileReturnsIff`).
- The client's engine keeps the block size it was constructed with, whatever the handshake settles
  (`BlockSizesAgreeIff`). With smaller blocks than the server's every block is published on its own
  (`SmallerBlocksPublishEarly`); with larger ones `Finalisation` says when the sync is finalised.
- Some client reads do not look at the type of the frame they take. That is safe exactly for a transfer that does not
  directly follow an upload (`RepliesMatch`, `TransferMatchesIff`). After an upload, a leftover progress frame can be
  taken for an acknowledgement (`BackToBackUploadsMismatch`) or for a block request, which makes the server publish a
  block nobody asked for (`ProgressTakenForRequest`, `UploadThenDeltaDestroys`).
- The client's temp name replaces the extension, so `f.txt` and `f.bin` share one temp file (`TmpSharedIff`, `IsolatedIff`).
- Block counts are cast to 32 bits; they are exact, and a new file is asked for in full, exactly for sizes up to (2^32-1)
  blocks that do not overflow the sum (`CountIsExactIff`, `AllAskedForIff`).
- The upload handler announces a check of the declared digest and makes none (`DigestIsIgnored`,
  `WrongDigestIsPublished`); `apply_blocks` computes the digest of what it wrote and compares it with nothing
  (`ApplyBlocks` succeeds whenever no call fails, whatever the digest).
- A block that ends a sync is reported as a success even when the temp file could not be read back and nothing was
  published (`PublishedIff`, `SuccessReportedIff`), and an upload whose rename fails is not reported at all (`SaveOutcome`).
- The read lock around the block comparison does not keep the file from being replaced: renames take no lock
  (`RenameIsNeverExcluded`, `PublishedUnderReader`; what the locks do ensure is `WritesAreExclusive`).
- When a download breaks off, the error frame that follows is taken for file data (`ErrorFrameSwallowed`).

## Model

| member | source | states |
|---|---|---|
| Bytes.Wraps | server/src/delta_sync_handler.cpp:136-137 | 32-bit and 64-bit arithmetic wraps, and where |
| Blocks.CountIsExact | client/src/delta_sync.rs:36 | the 64-bit sum and 32-bit cast give the exact number of blocks for every size up to (2^32-1) blocks |
| Blocks.CountIsExactIff | server/src/delta_sync_handler.cpp:136-137 | for every 32-bit block size the computed count is exact if and only if neither the sum nor the cast wraps |
| Blocks.CountNeverOvershoots | server/src/delta_sync_handler.cpp:148-149 | whatever wraps, the computed count never names a block past the end, so `server_size - block_offset` never underflows |
| Blocks.BlockInRange | client/src/delta_sync.rs:40-41 | an index is below the block count exactly when the block starts inside the file |
| Blocks.ShortBlock | client/src/delta_sync.rs:42-46 | a block is short exactly when it is the last one and the size is no multiple of the block size |
| Blocks.BlockUnique | client/src/delta_sync.rs:40-46 | no position lies in two blocks |
| Blocks.ReadBlockIsTile | client/src/file_ops.rs:79-95 | the positioned read of a block's length returns exactly that tile |
| Blocks.WriteAllPieces | client/src/delta_sync.rs:168-171 | pieces of one file written in any order and with any overlap: covered positions hold the file, others what was there, gaps zero; exact final length |
| Blocks.MergeInAnyOrder | client/src/delta_sync.rs:147-189 | all tiles of a file, written in any permutation over zeros, restore the file |
| Adler32.Compute | server/src/delta_sync_handler.cpp:18-26 | the loop never leaves 32 bits and yields both sums modulo 65521, packed by shift and "or" on 32-bit words |
| Adler32.ClosedForm | client/src/hashing.rs:9-20 | the running sums equal the plain and the position-weighted sums of section 8.2 of RFC 1950 |
| Adler32.PackIsShiftOr | server/src/delta_sync_handler.cpp:25 | the 32-bit word `(b << 16) \| a`, read as a number, is the packed checksum of the model |
| Adler32.WrapsAt65521 | client/src/hashing.rs:10-16 | an input whose first sum is exactly 2^16 leaves 15 |
| Adler32.ChecksumHalves | client/src/hashing.rs:19 | packing loses nothing: both reduced sums come back out |
| Adler32.Combine | client/src/hashing.rs:9-20 | the checksum of a concatenation follows from the two checksums and the second length |
| Adler32.Slide | client/src/hashing.rs:7-20 | the rolling update: moving a window by one octet needs only the octet that leaves and the one that enters |
| Sha256.PaddingIsCanonical | server/src/file_manager.cpp:57-67 | the padded length is the least multiple of 64 with room for message, marker and length |
| Sha256.PaddingIsInjective | server/src/file_manager.cpp:57-67 | different messages below 2^61 octets never pad to the same octets |
| Sha256Constants.ChChooses | server/src/file_manager.cpp:89 | where `x` has a one the bit of `y`, elsewhere that of `z` |
| Sha256Constants.MajDecides | server/src/file_manager.cpp:92 | where `x` and `y` agree their bit, elsewhere that of `z` |
| Sha256Constants.RotateBy2 | server/src/file_manager.cpp:47-49 | a word with parts h and l of 30 and 2 bits, h * 2^2 + l, rotates to l * 2^30 + h |
| Sha256Constants.RotateBy6 | server/src/file_manager.cpp:47-49 | a word with parts h and l of 26 and 6 bits, h * 2^6 + l, rotates to l * 2^26 + h |
| Sha256Constants.RotateBy7 | server/src/file_manager.cpp:47-49 | a word with parts h and l of 25 and 7 bits, h * 2^7 + l, rotates to l * 2^25 + h |
| Sha256Constants.RotateBy11 | server/src/file_manager.cpp:47-49 | a word with parts h and l of 21 and 11 bits, h * 2^11 + l, rotates to l * 2^21 + h |
| Sha256Constants.RotateBy13 | server/src/file_manager.cpp:47-49 | a word with parts h and l of 19 and 13 bits, h * 2^13 + l, rotates to l * 2^19 + h |
| Sha256Constants.RotateBy17 | server/src/file_manager.cpp:47-49 | a word with parts h and l of 15 and 17 bits, h * 2^17 + l, rotates to l * 2^15 + h |
| Sha256Constants.RotateBy18 | server/src/file_manager.cpp:47-49 | a word with parts h and l of 14 and 18 bits, h * 2^18 + l, rotates to l * 2^14 + h |
| Sha256Constants.RotateBy19 | server/src/file_manager.cpp:47-49 | a word with parts h and l of 13 and 19 bits, h * 2^19 + l, rotates to l * 2^13 + h |
| Sha256Constants.RotateBy22 | server/src/file_manager.cpp:47-49 | a word with parts h and l of 10 and 22 bits, h * 2^22 + l, rotates to l * 2^10 + h |
| Sha256Constants.RotateBy25 | server/src/file_manager.cpp:47-49 | a word with parts h and l of 7 and 25 bits, h * 2^25 + l, rotates to l * 2^7 + h |
| Sha256Constants.InitialIsRoots | server/src/file_manager.cpp:52-55 | each initial word is the first 32 bits of the fraction of the square root of its prime |
| Sha256Constants.KIsRootsA | server/src/delta_sync_handler.cpp:31-58 | round constants 0 to 7 are the first 32 bits of the fraction of the cube root of their primes |
| Sha256Constants.KIsRootsB | server/src/delta_sync_handler.cpp:31-58 | round constants 8 to 15 are the first 32 bits of the fraction of the cube root of their primes |
| Sha256Constants.KIsRootsC | server/src/delta_sync_handler.cpp:31-58 | round constants 16 to 23 are the first 32 bits of the fraction of the cube root of their primes |
| Sha256Constants.KIsRootsD | server/src/delta_sync_handler.cpp:31-58 | round constants 24 to 31 are the first 32 bits of the fraction of the cube root of their primes |
| Sha256Constants.KIsRootsE | server/src/delta_sync_handler.cpp:31-58 | round constants 32 to 39 are the first 32 bits of the fraction of the cube root of their primes |
| Sha256Constants.KIsRootsF | server/src/delta_sync_handler.cpp:31-58 | round constants 40 to 47 are the first 32 bits of the fraction of the cube root of their primes |
| Sha256Constants.KIsRootsG | server/src/delta_sync_handler.cpp:31-58 | round constants 48 to 55 are the first 32 bits of the fraction of the cube root of their primes |
| Sha256Constants.KIsRootsH | server/src/delta_sync_handler.cpp:31-58 | round constants 56 to 63 are the first 32 bits of the fraction of the cube root of their primes |
| Sha256Vectors.EmptyHex | client/src/hashing.rs:70-74 | the digest of the empty string, computed round by round, is the known one |
| Sha256Vectors.AbcHex | client/src/hashing.rs:77-80 | the digest of "abc", computed round by round, is the known one |
| Sha256Code.RotrIsRotation | server/src/delta_sync_handler.cpp:60-62 | shift, shift and "or" rotate, for all ten amounts in use |
| Sha256Code.SigmasOfRotr | server/src/file_manager.cpp:79-91 | the four terms of the code are the four functions of section 4.1.2 |
| Sha256Code.PadMessage | server/src/file_manager.cpp:57-67 | the in-place padding, all writes in bounds, is the padding of section 5.1.1 of FIPS 180-4 |
| Sha256Code.Schedule | server/src/file_manager.cpp:71-82 | the schedule array holds W of section 6.2.2 although the code adds in another order |
| Sha256Code.CompressBlock | server/src/file_manager.cpp:84-102 | sixty-four rounds over eight variables and the final addition are one compression of section 6.2.2 |
| Sha256Code.HashMessage | server/src/delta_sync_handler.cpp:60-96 | the block loop ends in the digest of the standard, for every octet string |
| Sha256Code.Sha256Raw | server/src/file_manager.cpp:51-115 | the 32 octets of the digest, big-endian word by word |
| Sha256Code.ToHex | server/src/file_manager.cpp:117-126 | two lower-case digits per octet, in order |
| Sha256Code.Sha256Hex | server/src/delta_sync_handler.cpp:30-111 | nibbles taken straight from the words spell the hex form of the digest's octets |
| Sha256Code.BothRoutines | server/src/delta_sync_handler.cpp:60-111 | on every input `sha256_hex` is `to_hex` of `sha256_raw` |
| Wire.EncodersAgree | server/include/wire_protocol.h:67-88 | copying fields into a sized buffer and appending them give the same octets, for every frame |
| Wire.DecodersAgree | client/src/wire.rs:45-90 | on every octet stream both readers fail, or both accept the same payload and length; types differ exactly on sentinel frames not marked 0xFE, where C++ reports 0xFE and Rust the octet itself |
| Wire.KnownFrames | server/include/wire_protocol.h:67-88 | concrete frames octet by octet: length most significant first, type, payload; the raw-data header |
| Wire.HeaderDecoded | server/include/wire_protocol.h:99-127 | the header decoder fails exactly on input too short, and reads back what was encoded |
| Wire.FrameRoundTrip | server/include/wire_protocol.h:162-202 | either encoder, either reader, anything following: the frame comes back and exactly its octets are consumed |
| Wire.StandardFrameSurvivesIff | server/include/wire_protocol.h:67-77 | a standard frame survives if and only if its payload is shorter than the sentinel value |
| Wire.StreamRoundTrip | client/src/wire.rs:25-90 | any sequence of standard and raw frames decodes across languages to itself with nothing left over |
| Wire.StrictPrefixRejected | client/src/wire.rs:45-90 | every strict prefix of a frame is rejected by both readers |
| Sockets.ReadExact | server/include/wire_protocol.h:131-144 | for every script of short and interrupted reads: fills exactly the asked range, or all there is, and touches nothing else |
| Sockets.WriteExact | server/include/wire_protocol.h:146-159 | for every script of short and interrupted sends: all octets in order, or a strict prefix and a different count |
| Sockets.ReadFrameFromSocket | server/include/wire_protocol.h:162-202 | the socket reader agrees with the reader on octet sequences, however the octets arrive |
| ZeroCopy.SendFileLinux | server/src/zero_copy_sender.cpp:124-162 | success means exactly the asked range was emitted; failure only on a hard error; terminates on every script |
| ZeroCopy.SendFileFallback | server/src/zero_copy_sender.cpp:210-247 | the same for the read/send loop; a failure has emitted a strict prefix |
| ZeroCopy.SendFile | server/src/zero_copy_sender.cpp:32-120 | missing, empty or past-the-end requests send nothing; success emits one header frame and one raw frame with the file from the offset on; any later failure has emitted a strict prefix of these octets |
| ZeroCopy.ErrorFrameSwallowed | server/src/session.cpp:182-185 | a download that breaks off in the data, followed by the error frame: both readers take its octets for the missing file octets, or go on waiting |
| ZeroCopy.DownloadDecodes | client/src/tcp_client.rs:190-200 | either reader decodes those octets into exactly that header and that raw frame |
| DeltaSync.ComputeSignatures | client/src/delta_sync.rs:33-71 | one signature per block, of exactly that tile |
| DeltaSync.SignaturesDescribe | client/src/delta_sync.rs:40-60 | numbered from zero, end to end, from the start to the end of the file, each with the hashes of the octets it spans |
| DeltaSync.IndexSignatures | server/src/delta_sync_handler.cpp:151-155 | the lookup table answers as the list does, the last signature of an index winning |
| DeltaSync.CompareStoredBlocks | server/src/delta_sync_handler.cpp:157-190 | the loop lists exactly the stored blocks whose signature is missing or different, or which cannot be read; the file may be a different one for every block |
| DeltaSync.HandleSignatureRequest | server/src/delta_sync_handler.cpp:125-207 | the request is the increasing list of wanted indices, for a present, absent, longer or shorter server file |
| DeltaSync.RequestMeans | server/src/delta_sync_handler.cpp:160-199 | for arbitrary signatures and a file that may change between reads: exactly when a block is asked for |
| DeltaSync.RequestIsMinimal | server/src/delta_sync_handler.cpp:147-199 | strictly increasing, bounded by the larger block count, and an index is in it exactly when it lies outside one file or the hashes differ |
| DeltaSync.AllAskedForIff | server/src/delta_sync_handler.cpp:134-144 | a file the server lacks is asked for in full if and only if its size is representable |
| DeltaSync.WrappedCountAsksForNothing | server/src/delta_sync_handler.cpp:136-140 | a new file of exactly 2^32 blocks is never asked for |
| DeltaSync.KeptFacts | client/src/delta_sync.rs:110-114 | the client keeps exactly the in-range indices and their order |
| DeltaSync.ReadRequestedBlocks | client/src/delta_sync.rs:100-142 | the answer is the tiles of those indices, with offset and hash |
| DeltaSync.SentBlocksAreTrue | client/src/delta_sync.rs:110-133 | every block sent was asked for, sits at its index times the block size, holds the file's octets there and their hash |
| DeltaSync.BytesSent | client/src/delta_sync.rs:108-133 | octets sent equal the summed sizes of the requested blocks that are in range |
| DeltaSync.DeltaSuffices | server/src/delta_sync_handler.cpp:134-206 | the sent blocks over the server's file resized give the client's file, or there are two different blocks with equal Adler-32 and equal strong hash |
| Storage.FileManager.ReadBlock | server/src/file_manager.cpp:186-200 | the file's octets from the offset, at most the size; nothing for a missing file |
| Storage.FileManager.WriteBlockAtomic | server/src/file_manager.cpp:202-223 | only the temp file changes: as much of the block as gets written, over its old content or over nothing; success only when all of it was |
| Storage.FileManager.WriteFileAtomic | server/src/file_manager.cpp:225-237 | only the temp file changes: it holds as much of the data as gets written; success only when all of it was |
| Storage.FileManager.AtomicRenameTmp | server/src/file_manager.cpp:303-311 | the target takes the temp content and the temp file is gone, or nothing changes |
| Storage.TmpPathInjective | server/src/file_manager.cpp:299-301 | different targets never share a temp file |
| Storage.IsolatedIffApart | server/src/file_manager.cpp:202-237 | work on one path leaves another and its temp file alone, on every store, if and only if neither is the other's temp file |
| Storage.PathsAreIndependent | server/src/file_manager.cpp:202-311 | over every interleaving of many sessions, a target and its temp file depend on that target's own operations only |
| Storage.PublishedWhole | server/src/file_manager.cpp:303-311 | after every interleaving a target holds its original content if none of its renames found a temp file, and else the whole temp content at the last one that did |
| Storage.OnlyRenamePublishes | server/src/file_manager.cpp:202-311 | published content changes only at the target's own rename |
| ClientFiles.TmpOf | client/src/file_ops.rs:121 | the temp file of `dir/base.ext` and of `dir/base` is `dir/base.tmp`, for every directory, base name and extension |
| ClientFiles.PathHasParts | client/src/file_ops.rs:121 | every path has such parts |
| ClientFiles.TmpSharedIff | client/src/file_ops.rs:121 | two local paths share a temp file exactly when directory and base name are the same |
| ClientFiles.OwnTmpIff | client/src/file_ops.rs:121 | a local path is its own temp file exactly when its extension is already `tmp` |
| ClientFiles.ExtensionsClash | client/src/file_ops.rs:107 | a concrete clash on the client that the server does not have |
| ClientFiles.IsolatedIff | client/src/file_ops.rs:119-161 | two local targets are isolated if and only if they differ in directory or base name |
| ClientFiles.FileOps.WriteBlockTo | client/src/file_ops.rs:119-149 | only the temp file changes, also when the write stops half-way |
| ClientFiles.FileOps.FinalizeFile | client/src/file_ops.rs:152-161 | rename if there is a temp file, success without one |
| ClientFiles.FileOps.WriteBlocks | client/src/delta_sync.rs:168-171 | the block loop: all blocks in order over what the temp file held, or a failed write and nothing but the temp file changed |
| ClientFiles.FileOps.ApplyBlocks | client/src/delta_sync.rs:147-189 | succeeds exactly when no call fails, then the file is the blocks over zeros and the result its hash; on failure nothing but the temp file has changed |
| ClientFiles.AppliedIsFileIff | client/src/delta_sync.rs:147-189 | blocks of a file applied in any order and with repetition give it back if and only if every missing block is zero |
| ClientFiles.AllBlocksRestore | client/src/delta_sync.rs:147-189 | all blocks in any permutation restore the file, remove the temp file and touch nothing else |
| Server.BlockSizesAgreeIff | client/src/tcp_client.rs:104-106 | which size each side settles on; engine, request and server block sizes agree if and only if the constructed size is reasonable or is the server's own |
| Server.NegotiationTells | server/src/negotiator.cpp:15-58 | a negotiation changes nothing; mode, transfer mode, size, digest and block size, exactly |
| Server.ProtocolErrors | server/src/session.cpp:85-89 | frames that fit nowhere are answered with a protocol error |
| Server.ServeConcat | server/src/session.cpp:44-92 | serving two runs of frames one after the other is serving their concatenation |
| UploadSession.UploadStep | server/src/session.cpp:230-249 | one frame of the loop: what is added to buffer and count, and the progress that is reported |
| UploadSession.UploadInProgress | server/src/session.cpp:223-251 | until the declared size: buffer is the concatenated raw payloads, `received` its length, other frames do nothing, nothing is stored |
| UploadSession.UploadExact | server/src/session.cpp:198-263 | published exactly when some prefix of the frames carries the declared size precisely, and then as the concatenation; otherwise the store is unchanged |
| UploadSession.SaveOutcome | server/src/session.cpp:253-263 | on a failing file system: when the target is replaced, and which failures are reported |
| UploadSession.ConnectionLost | server/src/session.cpp:225-228 | a peer that hangs up early: one error, and the store as it was |
| UploadSession.DigestIsIgnored | server/src/session.cpp:253-263 | frames that differ only in the digests they declare have the same replies and leave the same store, on every run |
| UploadSession.WrongDigestIsPublished | server/src/session.cpp:197-203 | every file can be uploaded under a digest that is not its own and is published |
| UploadSession.ClientUpload | client/src/tcp_client.rs:218-263 | the Rust client's upload always ends with its file on the server; what it leaves unread is stated |
| DownloadSession.DownloadDelivers | server/src/session.cpp:173-188 | size, digest and offset of the stored file and its octets from the offset on, one by one; or a refusal |
| DownloadSession.SendDownload | server/src/zero_copy_sender.cpp:32-120 | on success, for every script of socket calls, what was sent decodes to exactly the frames of that answer |
| BlockIntegrity.CorruptBlockRejected | server/src/delta_sync_handler.cpp:218-225 | a block whose data does not hash to its declared hash is answered with status 5 and changes nothing |
| BlockIntegrity.CorruptBlocksChangeNothing | server/src/delta_sync_handler.cpp:218-225 | on every run of arbitrary frames the server ends up as if the corrupt blocks had never been sent |
| BlockIntegrity.OctetsAreGenuine | server/src/delta_sync_handler.cpp:218-233 | on every run of arbitrary block frames, every octet of every temp or published file was there before, is a gap, or comes from a block that hashes to its declared hash |
| BlockIntegrity.PublishedIff | server/src/delta_sync_handler.cpp:250-272 | exactly when a block changes the target, with every way the file system can fail |
| BlockIntegrity.SuccessReportedIff | server/src/session.cpp:336-344 | exactly when a block is answered with success, with silence or with an error |
| DeltaSession.Finalisation | server/src/session.cpp:323-354 | for every client block size from the server's up: at most one rename, after every sent block, exactly when the last block sent is shorter than the server's size; otherwise no reply |
| DeltaSession.EndsShortIff | server/src/session.cpp:325-326 | with agreed sizes that is when the size is no multiple of the block size and the last block was sent |
| DeltaSession.Overlaid | server/src/file_manager.cpp:209-220 | the published file is the sent blocks over whatever the temp file held, with zeros beyond, and as long as the longer of the two |
| DeltaSession.PublishedEqualsClientIff | server/src/delta_sync_handler.cpp:227-272 | it is the client's file if and only if the temp file was no longer and fits wherever no block was sent |
| DeltaSession.NothingHeld | server/src/file_manager.cpp:209-216 | without a temp file from before, that is when every unsent block is zero |
| DeltaSession.SyncOutcome | client/src/tcp_client.rs:266-310 | a whole sync end to end, for any temp file: exactly when the server's copy is the client's file, exactly which replies come, and what stays behind |
| DeltaSession.TwoSyncs | server/src/file_manager.cpp:209-216 | an unfinalised sync followed by a finalised one: the second file arrives exactly when it agrees with what the first sent wherever it sent nothing itself |
| DeltaSession.WrongFilePublished | server/src/session.cpp:336-344 | for every hash and every block size above one, two files for which the sync reports success and publishes something else |
| DeltaSession.FirstSyncOutcome | server/src/delta_sync_handler.cpp:134-144 | with nothing stored: never published if the size is a multiple of the block size, else published with the tail of a longer temp file behind it |
| DeltaSession.SmallerBlocksPublishEarly | server/src/session.cpp:325-334 | a client with smaller blocks gets every single block published at once |
| SessionObject.DeltaSyncHandler.HandleBlockData | server/src/delta_sync_handler.cpp:211-275 | files, status and progress map after a block, on every failure path |
| SessionObject.Session.HandleClientHello | server/src/session.cpp:100-136 | adopts a reasonable size, keeps its own otherwise, and reports what it uses |
| SessionObject.Session.HandleSignatureRequest | server/src/session.cpp:268-312 | answers with the wanted list and changes no file |
| SessionObject.Session.HandleBlockData | server/src/session.cpp:314-357 | state and reply of the block handler, with the heuristic for the last block |
| SessionObject.Session.ReadUploadFrames | server/src/session.cpp:222-251 | the loop consumes exactly the frames that `Serve` counts to the upload, or reports a lost connection |
| SessionObject.Session.SaveUpload | server/src/session.cpp:253-265 | writes and renames exactly when the declared size was hit |
| SessionObject.Session.HandleUploadRequest | server/src/session.cpp:190-266 | the whole handler equals `Serve` on the request and the frames it consumed |
| SessionObject.Session.Turn | server/src/session.cpp:55-90 | one turn of the loop consumes one frame, or an upload request with its data, and does what `Serve` does with them |
| SessionObject.Session.Run | server/src/session.cpp:44-92 | the object's main loop with its nested upload loop equals the frame-by-frame function, up to hang-up |
| FileMutexMachine.StepInv | server/src/file_mutex.cpp:9-60 | every step of every thread keeps: count = waiters + holders + threads in release, all on the object in the map, whose state is that of its holders |
| FileMutexMachine.Exclusion | server/src/file_mutex.cpp:23-49 | on every interleaving of any number of threads, no writer of a path alongside another holder, across cleanup and re-creation |
| FileMutexMachine.ReleaseIsMatched | server/src/file_mutex.cpp:28-49 | every release finds its entry and unlocks the object it locked, in its mode |
| FileMutexMachine.CleanupIsSafe | server/src/file_mutex.cpp:51-60 | what cleanup erases is unlocked and nobody waits for, holds or is about to lock it |
| FileMutexMachine.CleanupIsThorough | server/src/file_mutex.cpp:51-60 | after cleanup has visited an entry it is there exactly when some thread is counted in for it |
| FileMutexRefinement.GrantedIff | server/src/file_mutex.cpp:23-40 | a blocked thread can be let in if and only if it and all holders of its path are readers, or there is no holder |
| FileMutexSharing.OneMoreReader | server/src/file_mutex.cpp:23-26 | a thread that asks to read gets in beside any readers that hold the path |
| FileMutexSharing.ReadersShare | server/src/file_mutex.cpp:23-26 | for every n there is a run after which n threads hold the read lock of one path together |
| FileMutexRefinement.StepSimulates | server/src/file_mutex.cpp:9-60 | each step is a step of "every path owns one permanent lock, held by any readers or one writer", or invisible; cleanup is invisible |
| FileMutexRefinement.GrantsAgree | server/src/file_mutex.cpp:23-26 | a blocked thread is let in exactly when the specification would let it in |
| FileMutexRefinement.ReachableRefines | server/src/file_mutex.cpp:9-60 | every run of the implementation is a run of the specification that ends in its abstraction |
| FileMutexProgress.NoDeadlock | server/src/delta_sync_handler.cpp:158-233 | in every reachable state with an operation under way some thread can step, whatever policy serves the waiters |
| FileMutexProgress.StepShrinks | server/src/file_mutex.cpp:9-60 | every step but a new request brings the system closer to rest |
| FileMutexProgress.ReachableDrains | server/src/file_mutex.cpp:9-60 | from every reachable state all operations can be completed |
| FileMutexObject.FileMutex.GetOrCreate | server/src/file_mutex.cpp:9-21 | the lookup step of the machine on the object's fields |
| FileMutexObject.FileMutex.ReleaseRead | server/src/file_mutex.cpp:28-35 | unlock and decrement of the machine; an unknown path changes nothing |
| FileMutexObject.FileMutex.ReleaseWrite | server/src/file_mutex.cpp:42-49 | the same for a writer |
| FileMutexObject.FileMutex.CleanupUnused | server/src/file_mutex.cpp:51-60 | exactly the entries with a positive count remain |
| FileMutexObject.ScanAllIsCleaned | server/src/file_mutex.cpp:53-59 | erasing entry by entry in any order is that same cleanup |
| LockedFiles.WritesAreExclusive | server/src/delta_sync_handler.cpp:227-233 | on every run of threads, locks and files, a block is written only while no other thread holds the path |
| LockedFiles.OneVersionWithoutRename | server/src/delta_sync_handler.cpp:157-192 | on every run without a rename of the path a comparison sees one version of it |
| LockedFiles.RenameIsNeverExcluded | server/src/delta_sync_handler.cpp:258-260 | whoever holds the path, an idle thread can publish it |
| LockedFiles.PublishedUnderReader | server/src/session.cpp:254-258 | a run in which the file is replaced while a comparison holds its read lock |
| ReplyMatching.RepliesMatch | client/src/tcp_client.rs:40-304 | on every run in which no upload and no delta sync directly follows an upload, each frame taken as a reply belongs to the waiting request and is of its kind, and no call fails |
| ReplyMatching.StaleIsBounded | client/src/tcp_client.rs:40-49 | between calls at most one stale frame is queued or under way, and none unless the last call was an upload |
| ReplyMatching.TransferMatchesIff | client/src/tcp_client.rs:244-281 | the next transfer takes its own reply, for every clock and interleaving, if and only if the call before was not an upload; after an upload there is a clock for which it never does |
| ReplyMatching.FirstTaken | client/src/tcp_client.rs:281 | a read without type check takes the head of what is to come, on every run |
| ReplyMatching.CallReturnsIff | client/src/tcp_client.rs:140-338 | each call of the client, after every run: when it comes back, in terms of the server's files, the local file and the block size; on all continuations |
| ReplyMatching.SyncFileReturnsIff | client/src/tcp_client.rs:341-364 | `sync_file` comes back if and only if the server has the file and the digests are equal and not empty, or the last local block is short and is sent |
| ReplyMatching.DownloadArrives | client/src/tcp_client.rs:173-215 | a download that comes back has brought exactly the stored content, and its digest check has passed, on all continuations of every run |
| ReplyMatching.GivesUpAtHundred | client/src/tcp_client.rs:40-49 | ninety-nine unexpected frames are skipped, the hundredth ends the call |
| ReplyMatching.StepSettles | client/src/tcp_client.rs:40-49 | every step but a new call brings client and server closer to rest |
| ReplyMatching.Settles | client/src/tcp_client.rs:40-304 | every call can be carried on until nothing more happens |
| ReplyMatching.BackToBackUploadsMismatch | server/src/session.cpp:237-249 | a concrete run of two uploads in a row in which the first one's progress frame is taken for the second one's acknowledgement |
| ReplyMatching.ProgressTakenForRequest | client/src/tcp_client.rs:281-298 | a progress frame decoded as a block request: the server publishes a block nobody asked for, and exactly when that is the client's file |
| ReplyMatching.UploadThenDeltaDestroys | proto/adaptivesync.proto:134-137 | a concrete run of an upload and a delta sync of the same path that ends with a wrong file published |
| ReplyMatching.ServerStepKeepsPending | server/src/session.cpp:44-92 | when the server works off its queue never changes what the client will eventually receive, or the final server state |

## Left out

- The desktop interface under ui/, the benchmarks and the build files: no invariant of the protocol lives there.
- server.cpp and main.cpp: accept loops, signals and argument parsing; the shutdown flag of a session is not modelled.
- Protobuf coding: taken as lossless, with one message for a payload that does not parse. Of frames decoded as another kind
  only a progress message read as a block request is computed; the other mix-ups that can occur end in an error.
- What a caller does with a connection after a call has returned an error.
- The `sha2` crate behind the client's hashes: client and server use one hash `H`; that the server's own routine is SHA-256
  is proved separately.
- Block size zero: the code divides by it; the type `BlockSize` leaves it out.
- Path normalisation and the traversal exception of `resolve_path`: paths are taken as already normalised, on both sides.
- Directory listing, modification times, transfer rates, log lines, Windows paths: reporting and foreign calls.
- Exhausted memory and 32-bit overflow of `active_count`.
- Fairness of the locks: that some thread can always step and that everything can drain is proved, not that a given
  thread is eventually served. Calls that release a lock they do not hold are not modelled; the handlers never make them.
- Sha256Code.HashMessage: the two C++ routines repeat the same loops, so they share one member here; only the output
  stages are modelled twice.
- Sha256Code.BothRoutines: for the same reason compares the output stages; the loops are proved against the standard once.
- Sockets.ReadExact: counts above 2^31-1, which the code casts to `int`, are not modelled.
- Sockets.WriteExact: the same for sends.
- Sockets.ReadFrameFromSocket: the same for frames that declare more; and a receive call is taken to report end of stream
  only at the end of the stream.
- ZeroCopy.SendFileLinux: the file does not shrink while it is sent; a `sendfile` that reports zero for ever would spin.
- ReplyMatching.RepliesMatch: one connection, agreed block sizes and a file system that does not fail.
- Server.Dispatch: a download that breaks off in the middle is modelled in `ZeroCopy` only; here it succeeds or is refused,
  and the stored file stays the same during one comparison.
- SessionObject.DeltaSyncHandler.HandleBlockData: the locks around the write are the subject of `LockedFiles` and are not
  taken again here.
