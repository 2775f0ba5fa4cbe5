# AfriyieOS: a verified model

AfriyieOS is a small operating system: a C kernel, a Python image builder, and a C library that
reads software packages. This project models its most intricate parts and proves what they are
for. Code that changes things in place is modelled in place: classes with fields and arrays, loops
with invariants, each method proved equal to a function of the state before it. The properties are
proved about those functions.

| part | files |
|---|---|
| DEFLATE decoder (RFC 1951) | `Bits`, `BitReader`, `CanonicalCode`, `HuffmanTable`, `Lz77`, `Sink`, `DeflateFormat`, `DeflateDecoder`, `DeflateTokens`, `DeflateHeaders`, `DeflateTheorems`, `DeflateCompleteness`, `DeflateLaws`, `DeflateVectors`, `DeflateDynamicVector`, `Inflate` |
| checks, numbers | `Crc`, `Checksums`, `Vli`, `Words`, `Common` |
| gzip members (RFC 1952), tar archives, packages | `Gzip`, `GzipTheorems`, `GzipReader`, `GzipWriter`, `GzipVector`, `Tar`, `TarTheorems`, `TarLaws`, `TarReader`, `Package` |
| .xz container (The .xz File Format) | `XzModel`, `XzTheorems`, `XzStream`, `XzExact`, `XzFiles`, `CrcValues`, `XzBeyond`, `XzVector`, `XzReader` |
| capability tables | `Capabilities`, `CapabilityRevocation`, `CapabilityTable`, `CapabilityRuns`, `CapabilityAnswers` |
| IPC endpoints | `WaitLists`, `IpcModel`, `IpcRuns`, `IpcOverflow`, `IpcAnswers`, `Endpoints` |
| physical frames | `FrameBitmap`, `FrameAllocator`, `FrameRuns` |
| scheduler | `SchedulerModel`, `SchedulerInvariant`, `SchedulerRuns`, `SchedulerPriority`, `SchedulerTime`, `SchedulerOrder`, `RunQueues`, `Scheduler` |
| slab heap | `HeapModel`, `HeapRuns`, `HeapPromises`, `HeapLedger`, `Heap` |
| ELF segment loader | `ElfModel`, `ElfLaws`, `ElfWords`, `ElfLoader` |
| FAT32: image builder against kernel driver | `FatNames`, `FatDirectory`, `FatDisk`, `FatModel`, `FatAgreement`, `FatTrees`, `FatLaws`, `FatNameWriter`, `FatLayout`, `FatPaths`, `FatWriter`, `FatReader`, `FatDriver`, `FatGeometry` |

How the parts are built:

- **DEFLATE.** `DeflateFormat` is a grammar of streams with a reference encoder: any sequence of
  stored, fixed and dynamic blocks, any run-length coding of the tables, any padding.
  `DeflateDecoder` says what the decoder answers for the bits still unread; `Inflate` is the code
  and equals it. `DeflateTheorems.InflatesExactly` closes the circle: data is accepted with an
  output if and only if the grammar says so.
- **Capabilities and IPC** are transition systems. The theorems are about every sequence of
  operations from an empty table, and every interleaving of senders and receivers on an endpoint,
  with the woken-but-not-resumed threads as bookkeeping beside the real state.
- **Frames.** A bitmap and a byte of references per frame refine a set of free frames and a count
  of owners; `FrameRuns` compares whole runs with books that the callers keep.
- **Scheduler and heap.** One invariant each, kept by every operation and so in every reachable
  state; the properties are consequences of it.
- **FAT32.** The builder and the driver are two independent programs. `FatDisk` relates clusters
  and the table to a store of chains, `FatModel` relates the store to a file system, and
  `FatReader.SessionAgrees` and, for path strings, `FatReader.PathAgrees` say that what one writes
  the other reads.

A method and the function that specifies it could share a mistake. So what the functions answer is
also said without them: who succeeds, who is woken and for how long in terms of what could be seen
before (`IpcAnswers`, `CapabilityAnswers`, `SchedulerTime`, `SchedulerOrder`, `HeapLedger`,
`ElfLaws`, `FatTrees`), what the tables and layouts come to in numbers (`DeflateLaws`, `TarLaws`,
`FatLaws`), and what given bytes are read as (`DeflateVectors`, `DeflateDynamicVector`,
`GzipVector`, `XzVector`).

Where the code does not do what it is meant to, the model follows the code, a lemma gives the case,
and another states exactly when the promise holds:

- `cap_delete` of a slot with live children lets a later derivation close a cycle of links
  (`CapabilityRuns.DeleteThenDeriveMakesACycle`; exactly then, `CapabilityRuns.DeleteKeepsForestExactly`),
  and revoking on it recurses for ever (`CapabilityRuns.RevokingTheCycleNeverEnds`; exactly then,
  `CapabilityRevocations.RevocationEndsExactly`); the comments at kernel/core/cap.c:27-32 and 264-269 say otherwise.
- With more receivers than ring slots, the hand-over branch of `ipc_send` overwrites a message
  (`IpcOverflow.OverflowReorders`; exactly then, `IpcOverflow.OrderNeedsTheBound`).
- Priorities are not strict, against kernel/core/sched.c:7-9: a yield or an expired slice runs the
  best *other* thread, idle included, and a thread made ready does not preempt
  (`SchedulerRuns.YieldPrefersIdle`; for every operation exactly when it stays strict,
  `SchedulerPriority.StepIsUrgentExactly`).
- A frame shared more than 255 times is freed early, and no other (`Frames.SharingLimit`); a
  reserved frame is freed like any other (`FrameRuns.FreeIsSafeExactlyWhenNotAside`); reserving a
  frame in use is forgotten when its owner drops it (`FrameRuns.ReservationsOfHeldFramesLapse`); a
  reservation that reaches 2^44 misses frames (`Frames.ReservationsReachExactly`).
- The heap never goes back to an older slab of a class: the loop at kernel/core/heap.c:351-360,
  which is to prevent it, is never entered (`HeapPromises.RoomIsRefused`, and for ever,
  `HeapPromises.StrandedForEver`; room is used exactly when it is in the newest slab,
  `HeapPromises.RoomIsUsedExactly`).
- A request of 2^44 - 8215 bytes or more gets too few frames, since their number is cut to 32 bits at
  kernel/core/heap.c:260: two of them overlap (`HeapPromises.HugeObjectsOverlap`, with
  `HeapPromises.HugeRequestsGetTwoFrames`; exactly which sizes, `HeapModel.LargeFitsExactly` and
  `HeapPromises.OverlapExactly`).
- The bytes reported for live allocations are those ever requested
  (`HeapLedgers.FreedBytesAreCounted`; right exactly until the first free,
  `HeapLedgers.BytesAreLiveExactly`), against kernel/core/heap.c:557.
- A literal table that leaves bit strings undecodable is accepted, against the comment at
  libs/libafpkg/inflate.c:524-527 (`DeflateCompleteness.IncompleteLiteralsAreAccepted`; exactly
  which are complete, `DeflateCompleteness.AcceptedLiteralsAreCompleteExactly`).
- The .xz reader accepts more than the format: block headers that run into their check, sizes
  declared to be zero, and footers whose size field wraps. For each there are whole files, with any
  payload, that are accepted (`XzBeyond.ShortHeaderFile`, `XzBeyond.ZeroSizesFile`,
  `XzBeyond.WrappedFooterFile`; exactly these, `XzFiles.ConformsExactly`).
- The test at kernel/core/elf.c:306-307, which is to keep the copy inside the file, lets a sum wrap
  (`ElfWords.RangeWraps`; exactly when it does what it is for, `ElfWords.TestIsMeantExactly`); so
  does the page count (`ElfWords.MemoryWraps`; exactly when it is right, `ElfWords.PageCountIs`); and
  of a segment's user addresses only the first is tested (`ElfWords.LoadsBeyondUser`; exactly when
  all pages are user pages, `ElfWords.UserPagesExactly`).
- The image builder looks names up by their short form only. It accepts a second file under a name
  of more than twelve characters, which the kernel then never returns
  (`FatAgreement.SecondWriteIsLost`), and refuses a new name that is another's short form
  (`FatAgreement.ShortFormIsRefused`; exactly then, `FatAgreement.RefusedThoughNewExactly`).

One comment differs from a constant and no behaviour hangs on it: kernel/include/afriyie/config.h:81
calls the user part of the address space 1 TiB, and the constant, which the model has, ends at 2^44.

Modelling assumptions: an IPC or scheduler operation is not interrupted between two points where its
thread may stop running; integers are unbounded except where a width matters (bytes, handles,
generations, words, CRC registers, frame numbers and counts, addresses of frames and segments, sizes
in directory entries); the frames that `pmm_alloc_frames` returns to the heap and to the loader are
parameters there.

## Model

| member | source | states |
|---|---|---|
| `BitReaders.BitReader.constructor` | libs/libafpkg/inflate.c:74-81 | A fresh reader has every bit of the data left, least significant bit of each byte first. |
| `BitReaders.BitReader.ReadBits` | libs/libafpkg/inflate.c:85-108 | The value is the next n bits of the stream, least significant first, and exactly those are gone; with fewer left, nothing is consumed and overrun is set. Valid() is the invariant that at most 7 bits are buffered. |
| `BitReaders.BitReader.ReadBit` | libs/libafpkg/inflate.c:110-113 | One bit, or overrun exactly at the end. |
| `BitReaders.BitReader.AlignUnread` | libs/libafpkg/inflate.c:128-139 | What is left afterwards is what was left without its partial byte, and is the bits of the whole bytes from the byte position on: no byte is lost or read twice. |
| `BitReaders.LoadJoin` | libs/libafpkg/inflate.c:88-97 | Or-ing the next byte in above the buffered bits leaves the remaining stream the same. |
| `CanonicalCode.KraftInequality` | libs/libafpkg/inflate.c:180-190 | The remaining-space count stays non-negative at every length exactly when the Kraft sum of the lengths is at most one. |
| `CanonicalCode.MatchUnique` | libs/libafpkg/inflate.c:209-232 | Under Kraft, the codes of section 3.2.2 of RFC 1951 are prefix-free. |
| `CanonicalCode.PositionInjective` | libs/libafpkg/inflate.c:192-202 | The counting sort sends no two coded symbols to one place. |
| `HuffmanTables.LookupIs` | libs/libafpkg/inflate.c:209-232 | A bit string that starts with a symbol's canonical code is looked up as that symbol: decoding inverts the code. |
| `HuffmanTables.WalkStep` | libs/libafpkg/inflate.c:215-229 | One turn of the count-and-first-code walk: the code never falls below `first`, `index` counts the shorter codes, and the turn ends at exactly the symbol whose code was read. |
| `HuffmanTables.Huffman.Build` | libs/libafpkg/inflate.c:164-205 | Refuses exactly the over-subscribed lists; otherwise the arrays represent the canonical code, and the answer is 0 exactly for a complete code. |
| `HuffmanTables.Huffman.Decode` | libs/libafpkg/inflate.c:209-232 | Returns the unique symbol whose code comes next and consumes exactly its length, or -1 exactly when no code matches (or the reader had overrun). |
| `Lz77.CopyBackIsPeriodic` | libs/libafpkg/inflate.c:321-330 | A back-reference, overlapping or not, repeats with its distance as period. |
| `Lz77.CopyBackWithoutOverlap` | libs/libafpkg/inflate.c:321-330 | Without overlap it is a plain copy of a slice. |
| `Lz77.EveryMatchHasAToken` | libs/libafpkg/inflate.c:263-293 | The base and extra-bit tables can express every length 3-258 and every distance 1-32768. |
| `Lz77.TokenRanges` | libs/libafpkg/inflate.c:263-293 | And nothing outside those ranges. |
| `Sinks.Sink.PutByte` | libs/libafpkg/inflate.c:305-312 | Appends in place, or sets `full` and changes nothing. |
| `Sinks.Sink.Copy` | libs/libafpkg/inflate.c:321-330 | The byte-by-byte copy in the buffer is CopyBack of the output so far; refused exactly when it reaches before the output or past the window. |
| `DeflateTokens.TokensRoundTrip` | libs/libafpkg/inflate.c:335-392 | Decoding any encodable list of literals and matches gives its LZ77 expansion and leaves what follows; too large or reaching too far back is refused. |
| `DeflateTokens.TokensSound` | libs/libafpkg/inflate.c:335-392 | Whatever is accepted is the encoding of such a list with that expansion. |
| `DeflateHeaders.LengthsRoundTrip` | libs/libafpkg/inflate.c:479-517 | Decoding run-length-coded lengths gives the lengths they stand for. |
| `DeflateHeaders.LengthsSound` | libs/libafpkg/inflate.c:479-517 | Accepted lengths are the encoding of run-length operations that produce them. |
| `DeflateHeaders.HeaderRoundTrip` | libs/libafpkg/inflate.c:445-538 | The header of a dynamic block decodes to its two code tables. |
| `DeflateHeaders.HeaderSound` | libs/libafpkg/inflate.c:445-538 | Every accepted header is the encoding of a valid one with those tables. |
| `DeflateCompleteness.CompleteExactly` | libs/libafpkg/inflate.c:180-204 | Every bit string of fifteen bits starts with a code if and only if the lengths use up the code space, which is when the build answers 0. |
| `DeflateCompleteness.AcceptedLiteralsAreCompleteExactly` | libs/libafpkg/inflate.c:524-535 | An accepted dynamic header has a literal table that decodes everything, as the comment there promises of all, if and only if its literal lengths use up the code space. |
| `DeflateCompleteness.IncompleteLiteralsAreAccepted` | libs/libafpkg/inflate.c:524-535 | A header whose only literal is the end of the block, with a code of eight bits, is accepted. |
| `DeflateCompleteness.IncompleteBlocksInflate` | libs/libafpkg/inflate.c:524-535 | A stream of one block with that header inflates. |
| `DeflateTheorems.FixedTablesAreCodes` | libs/libafpkg/inflate.c:242-261 | The fixed literal code is complete; the fixed distance code leaves out exactly two codes. |
| `DeflateTheorems.StoredRoundTrip` | libs/libafpkg/inflate.c:397-440 | A stored block behind any padding decodes to its bytes. |
| `DeflateTheorems.StoredSound` | libs/libafpkg/inflate.c:397-440 | An accepted stored block is padding to the byte boundary, LEN, NLEN and the bytes. |
| `DeflateTheorems.BodyRoundTrip` | libs/libafpkg/inflate.c:580-619 | Every block of every type decodes to its meaning. |
| `DeflateTheorems.BodySound` | libs/libafpkg/inflate.c:580-619 | Every accepted block is a valid one of the type announced. |
| `DeflateTheorems.BlocksRoundTrip` | libs/libafpkg/inflate.c:571-637 | Any number of blocks, up to the final one. |
| `DeflateTheorems.BlocksSound` | libs/libafpkg/inflate.c:571-637 | Conversely, within the block limit. |
| `DeflateTheorems.StreamRoundTrip` | libs/libafpkg/inflate.c:543-657 | Every valid stream of stored, fixed and dynamic blocks, whatever follows it, inflates to its LZ77 expansion if that fits and is refused as too large otherwise; `consumed` is the bits used rounded up to bytes. |
| `DeflateTheorems.StreamSound` | libs/libafpkg/inflate.c:543-657 | Whatever inflates is such a stream, with that meaning and that many bytes. |
| `DeflateTheorems.InflatesExactly` | libs/libafpkg/inflate.c:543-657 | The two together: data inflates to an output if and only if some valid stream at its front means it. |
| `DeflateTheorems.StreamsAreUnambiguous` | libs/libafpkg/inflate.c:543-657 | No data can be read as two streams that mean different things. |
| `DeflateLaws.ClcLengthsLand` | libs/libafpkg/inflate.c:287-293 | For every order of valid lengths, entry k < 3 lands at 16 + k and entry 3 at 0; from 4 on an even entry lands at 8 + (k-4)/2 and an odd one at 8 - (k-3)/2; all others are zero. |
| `DeflateLaws.LengthCodesAre` | libs/libafpkg/inflate.c:263-277 | Eight length codes for one length each, then four to every number of extra bits, each beginning where the one before ends, and 258 on its own. |
| `DeflateLaws.DistanceCodesAre` | libs/libafpkg/inflate.c:278-285 | Four distance codes for one distance each, then two to every number of extra bits. |
| `DeflateLaws.FixedCodesAre` | libs/libafpkg/inflate.c:242-252 | The fixed literal codes in bits: 00110000 to 10111111, 110010000 to 111111111, 0000000 to 0010111 and 11000000 to 11000111. |
| `DeflateLaws.FixedDistancesAre` | libs/libafpkg/inflate.c:254-261 | The fixed distance code of a symbol is its number in five bits. |
| `DeflateLaws.CodesFollow` | libs/libafpkg/inflate.c:164-203 | For any lengths, each code is the one before plus one, followed by as many zeros as it is longer: shorter codes first, and codes of one length in symbol order. |
| `DeflateLaws.CodesStartAtZero` | libs/libafpkg/inflate.c:164-203 | The first code of all is zero. |
| `DeflateLaws.LastCodeFits` | libs/libafpkg/inflate.c:164-203 | Lengths are a prefix code if and only if the last code given out is one of its length. |
| `DeflateLaws.RepeatsAre` | libs/libafpkg/inflate.c:473-507 | Symbol 16 with two bits stands for three to six copies of the last length and needs one, 17 with three bits for three to ten zeros, 18 with seven for eleven to 138. |
| `DeflateVectors.FixedVector` | libs/libafpkg/inflate.c:543-631 | Known answer: 4B C4 06 80 2C 00, a fixed block with two back-references that have extra bits, is 24 times the letter a, if there is room. |
| `DeflateVectors.StoredVector` | libs/libafpkg/inflate.c:543-631 | Known answer: a stored block that is not the last and an empty fixed one, 00 01 00 FE FF 61 03 00, are the letter a. |
| `DeflateDynamicVector.DynamicVector` | libs/libafpkg/inflate.c:543-631 | Known answer: fifteen bytes of a block with its own tables, run-length coded with all three repeats, are four times the letter a. |
| `Inflater.ReadReference` | libs/libafpkg/inflate.c:369-384 | Length and distance of a match, against the decoder function. |
| `Inflater.InflateBlock` | libs/libafpkg/inflate.c:335-392 | The decode loop in place equals DecodeTokens, errors included. |
| `Inflater.InflateStored` | libs/libafpkg/inflate.c:397-440 | The stored path in place equals DecodeStored. |
| `Inflater.ReadOrder` | libs/libafpkg/inflate.c:458-465 | The code-length code's lengths land in their scrambled places. |
| `Inflater.ReadLengths` | libs/libafpkg/inflate.c:476-522 | The run-length loop equals DecodeLengths; it fails exactly when that does. |
| `Inflater.ReadDynamicTables` | libs/libafpkg/inflate.c:445-538 | Both tables represent the lengths of the header, or the header is refused. |
| `Inflater.NextBlock` | libs/libafpkg/inflate.c:572-619 | One block, with the final bit. |
| `Inflater.InflateBlocks` | libs/libafpkg/inflate.c:571-637 | The block loop with its limit equals DecodeBlocks. |
| `Inflater.Consumed` | libs/libafpkg/inflate.c:641-653 | The byte count reported is the bits used, rounded up. |
| `Inflater.AfpkgInflate` | libs/libafpkg/inflate.c:543-657 | The decoder in place equals Inflate, the function the theorems are about, and writes nothing outside its window. |
| `Crc.CheckChains` | libs/libafpkg/xz_decode.c:76-99 | For every width and polynomial, the check of a whole is the check of its second part seeded with that of the first. |
| `Crc.StepInjective` | libs/libafpkg/xz_decode.c:80-83 | Each step of the register is injective when the constant term of the polynomial is set. |
| `Crc.Absorb` | libs/libafpkg/xz_decode.c:78-84 | Folding a whole byte in and stepping eight times is feeding its bits one by one. |
| `Crc.BurstsAreCaught` | libs/libafpkg/xz_decode.c:76-99 | Two messages that differ only within as many bits as the register has never share a check. |
| `Crc.ResidueIsConstant` | libs/libafpkg/xz_decode.c:76-99 | Running the check over a message and its own check gives the same value for every message. |
| `Checksums.Crc32Bytes` | libs/libafpkg/afpkg.c:316-331 | The branch-free form computes Crc32 with seed 0, as XzCrc32 does with the branch: the two forms agree on every input. |
| `Checksums.XzCrc32` | libs/libafpkg/xz_decode.c:76-86 | The form with a branch and a seed computes Crc32. |
| `Checksums.XzCrc64` | libs/libafpkg/xz_decode.c:88-99 | The 64-bit form computes Crc64. |
| `Checksums.Crc32Chains` | libs/libafpkg/xz_decode.c:76-86 | CRC-32 chains over concatenation. |
| `Checksums.Crc64Chains` | libs/libafpkg/xz_decode.c:88-99 | CRC-64 chains over concatenation. |
| `Checksums.Crc32CatchesBursts` | libs/libafpkg/xz_decode.c:76-86 | A change confined to up to four consecutive bytes always changes CRC-32, a one-byte change in particular. |
| `Checksums.Crc64CatchesBursts` | libs/libafpkg/xz_decode.c:88-99 | A change confined to up to eight consecutive bytes always changes CRC-64. |
| `CrcValues.PolynomialsAre` | libs/libafpkg/xz_decode.c:67-96 | Highest power first, the polynomials are 04C11DB7 and 42F0E1EBA9EA3693. |
| `Words.ReadLe` | libs/libafpkg/xz_decode.c:101-114 | Or-ing shifted bytes gives the little-endian value. |
| `Words.LeValueOfBytes` | libs/libafpkg/xz_decode.c:101-114 | Reading back a written word gives the word. |
| `Words.LeBytesOfValue` | libs/libafpkg/xz_decode.c:101-114 | Writing a read word gives the bytes. |
| `Vli.VliIsExact` | libs/libafpkg/xz_decode.c:130-163 | A variable-length integer is accepted if and only if it is the one canonical encoding of a value below 2^63 (section 1.2 of The .xz File Format). |
| `Vli.XzVli` | libs/libafpkg/xz_decode.c:130-163 | The shifting loop computes ParseVli within its limit. |
| `Gzip.HeaderRead` | libs/libafpkg/afpkg.c:356-409 | The reader finds the end of every header, whichever optional fields it has (section 2.3 of RFC 1952). |
| `Gzip.HeaderFound` | libs/libafpkg/afpkg.c:356-409 | What the reader skips is a valid header. |
| `GzipVectors.FlagByteIs` | libs/libafpkg/afpkg.c:372-409 | The flag byte is the sum of 1 for text, 2 for the header check, 4 for the extra field, 8 for the name and 16 for the comment. |
| `GzipTheorems.MemberRead` | libs/libafpkg/afpkg.c:345-475 | A member, whatever follows it, is read as its data and its exact length. |
| `GzipTheorems.ReadIsMember` | libs/libafpkg/afpkg.c:345-475 | Whatever is read is a member: header, DEFLATE stream, CRC and length. |
| `GzipTheorems.GunzipIsExact` | libs/libafpkg/afpkg.c:345-475 | The two together, as an if-and-only-if. |
| `GzipTheorems.MembersAreExact` | libs/libafpkg/afpkg.c:894-929 | The member loop returns an output if and only if the file is a list of members with that concatenated output for which there was room before each. |
| `GzipReader.SkipHeader` | libs/libafpkg/afpkg.c:380-409 | The header loop computes BodyStart. |
| `GzipReader.TrailerMatches` | libs/libafpkg/afpkg.c:440-461 | The two trailer words match exactly when the eight bytes are the trailer of the output. |
| `GzipReader.AfpkgGunzipMember` | libs/libafpkg/afpkg.c:345-475 | One member in place equals Gunzip and writes nothing outside its window. |
| `GzipReader.ReadApkMembers` | libs/libafpkg/afpkg.c:894-929 | The member loop in place equals ReadMembers. |
| `GzipWriter.GzipStored` | tools/pkgsynth.py:168-190 | The writer's loop computes the stored-block member. |
| `GzipWriter.WritesAMember` | tools/pkgsynth.py:168-190 | What it writes is a gzip member that holds the data. |
| `GzipWriter.StoredMemberRoundTrip` | tools/pkgsynth.py:168-190 | So it is read back, whatever follows. |
| `GzipVectors.WrittenVector` | tools/pkgsynth.py:168-190 | Known answer: the 24 bytes the writer makes of the letter a. |
| `GzipVectors.MemberVector` | libs/libafpkg/afpkg.c:345-475 | Those bytes are read as the letter a, whatever follows. |
| `TarTheorems.OctalRoundTrip` | libs/libafpkg/afpkg.c:494-507 | An octal field reads back as the number written. |
| `TarTheorems.NameRoundTrip` | libs/libafpkg/afpkg.c:553-558 | A name field reads back as the name without leading "./" and, when the name fills the field, without trailing blanks. |
| `TarTheorems.EntryRead` | libs/libafpkg/afpkg.c:530-602 | One call on a member anywhere in an archive reports its path, size, mode and contents and moves past it. |
| `TarTheorems.TarRoundTrip` | libs/libafpkg/afpkg.c:530-602 | Walking what the writer builds reports exactly the files, in order, and a clean end. |
| `TarTheorems.ReportedUnchanged` | libs/libafpkg/afpkg.c:522-558 | Exactly which names come back as they were given. |
| `TarTheorems.CursorGrows` | libs/libafpkg/afpkg.c:530-602 | Every step moves the cursor on by at least one 512-byte block. |
| `TarLaws.HeaderPlaces` | tools/pkgsynth.py:122-147 | Where every field of the writer's header lies and what it reads as. |
| `TarLaws.ChecksumField` | tools/pkgsynth.py:133-142 | The check sum field reads as the sum of the bytes of the header, its own taken as blanks. |
| `TarLaws.MemberRead` | libs/libafpkg/afpkg.c:530-602 | Of a member of any type by any writer: types L, K, x and g are passed over, 5 and names ending in a slash are directories, 0 and the zero byte are files, everything else is passed over. |
| `TarLaws.TooLongIsBad` | libs/libafpkg/afpkg.c:561-573 | A member that claims more than there is ends the walk. |
| `TarReader.ParseOctalField` | libs/libafpkg/afpkg.c:494-507 | The digit loop computes ParseOctal. |
| `TarReader.BlockIsZero` | libs/libafpkg/afpkg.c:509-517 | True exactly for a block of zeros. |
| `TarReader.AfpkgTarNext` | libs/libafpkg/afpkg.c:530-602 | One call computes TarNext, errors and the end included. |
| `TarReader.WalkArchive` | libs/libafpkg/afpkg.c:949-958 | Repeated calls compute Walk. |
| `TarReader.MakeHeader` | tools/pkgsynth.py:122-145 | Field by field, the checksum last, the 512-byte header results. |
| `TarReader.BuildArchive` | tools/pkgsynth.py:147-158 | The writer's loop builds the archive. |
| `Package.PackageRoundTrip` | libs/libafpkg/afpkg.c:855-958 | For any cut of an archive into pieces, the gzip members concatenated read back as the archive, and walking it gives the files. |
| `Package.ReadApk` | libs/libafpkg/afpkg.c:855-958 | The reader in place is members first, then the walk. |
| `XzTheorems.ChunksRead` | libs/libafpkg/xz_decode.c:212-275 | A stream of uncompressed LZMA2 chunks reads as its payload, to the byte. |
| `XzTheorems.HeaderRead` | libs/libafpkg/xz_decode.c:375-476 | Every well-formed block header is accepted with the sizes it declares. |
| `XzTheorems.BlockRead` | libs/libafpkg/xz_decode.c:375-567 | Every well-formed block, whatever follows, reads as its payload and yields its index record. |
| `XzTheorems.BlocksRead` | libs/libafpkg/xz_decode.c:355-568 | Any number of blocks up to 256, with their records in order. |
| `XzStream.IndexRead` | libs/libafpkg/xz_decode.c:570-629 | The index of the records decoded is accepted. |
| `XzStream.IndexWritten` | libs/libafpkg/xz_decode.c:570-629 | Only that index is, byte for byte. |
| `XzStream.FooterRead` | libs/libafpkg/xz_decode.c:631-654 | The footer that states the index's size and the header's flags is accepted. |
| `XzStream.FileIsRead` | libs/libafpkg/xz_decode.c:298-677 | Every well-formed file whose payload fits reads as its payload. |
| `XzStream.AcceptedIndexListsBlocks` | libs/libafpkg/xz_decode.c:570-629 | Any accepted file carries exactly the index of the blocks decoded from it, in order, and the records account for every byte returned. |
| `XzExact.ChunksWritten` | libs/libafpkg/xz_decode.c:212-275 | Conversely, an accepted chunk stream is a stream of uncompressed chunks with exactly that payload. |
| `XzExact.LaidHeaderRead` | libs/libafpkg/xz_decode.c:375-476 | Any header laid out from flags, sizes, filter, padding and check is accepted, even if its fields run into the check. |
| `XzExact.LaidHeaderWritten` | libs/libafpkg/xz_decode.c:375-476 | Nothing else is. |
| `XzExact.BlockIsExact` | libs/libafpkg/xz_decode.c:375-567 | A block is accepted, with output, record and length, if and only if it is laid out so; the record is header, chunks and check without padding. |
| `XzFiles.FooterIsExact` | libs/libafpkg/xz_decode.c:631-654 | A footer is accepted if and only if it is laid out with a size field that gives the index size modulo 2^32. |
| `XzFiles.XzIsExact` | libs/libafpkg/xz_decode.c:298-677 | A file is accepted for an output if and only if it is laid out from header, blocks, the index of those blocks, footer and padding, with that payload. |
| `XzFiles.ConformsExactly` | libs/libafpkg/xz_decode.c:375-654 | An accepted file conforms to the format if and only if the size byte of every block header leaves room for the numbers its flags announce, no declared size is zero for something, and the footer size field is below 2^30. |
| `XzFiles.SizeByteDecides` | libs/libafpkg/xz_decode.c:375-476 | A header of eight bytes never leaves that room, one of 28 or more always does, and one without declared sizes does exactly when it is longer than eight. |
| `XzFiles.FewGroupsExactly` | libs/libafpkg/xz_decode.c:130-170 | A number takes at most k bytes if and only if it is below 2^(7k). |
| `XzBeyond.ZeroSizesAreAccepted` | libs/libafpkg/xz_decode.c:481-510 | Whatever its chunks hold, a block that declares both sizes to be zero is accepted. |
| `XzBeyond.ZeroSizesFile` | libs/libafpkg/xz_decode.c:481-510 | So for any chunks there is a whole file that is accepted with their payload and does not conform. |
| `XzBeyond.OneBlockFile` | libs/libafpkg/xz_decode.c:298-677 | Around any accepted block there is an accepted file, which conforms if and only if the block does. |
| `XzBeyond.FooterWraps` | libs/libafpkg/xz_decode.c:641-644 | Any accepted file is still accepted with its footer size field moved by 2^30. |
| `XzBeyond.WrappedFooterFile` | libs/libafpkg/xz_decode.c:641-644 | Moved up, a conforming file becomes one that does not conform and is accepted with the same payload. |
| `XzBeyond.ShortHeaderIsAcceptedExactly` | libs/libafpkg/xz_decode.c:425-476 | Of the eight-byte headers that declare no sizes exactly one is accepted: 01 00 21 01 0C 9D 60 62, whose property byte is the first byte of its check. |
| `XzBeyond.ShortHeaderFile` | libs/libafpkg/xz_decode.c:425-476 | For any chunks there is a whole file with that header that is accepted with their payload and does not conform. |
| `CrcValues.CheckOfFour` | libs/libafpkg/xz_decode.c:76-99 | The check of four bytes is their word complemented, stepped 32 times and complemented again. |
| `CrcValues.ShortHeaderCheck` | libs/libafpkg/xz_decode.c:76-99 | The check of 01 00 21 01 is 62609D0C. |
| `XzVector.FileVector` | libs/libafpkg/xz_decode.c:298-677 | Known answer: sixty bytes with five checks, as a compressor writes them for the letter a, are read as the letter a. |
| `XzReader.Lzma2Chunks` | libs/libafpkg/xz_decode.c:212-275 | The chunk loop in place computes Chunks. |
| `XzReader.ReadBlockHeader` | libs/libafpkg/xz_decode.c:375-476 | Header parsing computes BlockHeader, unsupported filters and corruption told apart. |
| `XzReader.ReadOneBlock` | libs/libafpkg/xz_decode.c:375-567 | One block in place computes ReadBlock. |
| `XzReader.ReadAllBlocks` | libs/libafpkg/xz_decode.c:355-568 | The block loop with its limit computes ReadBlocks. |
| `XzReader.CheckIndex` | libs/libafpkg/xz_decode.c:576-629 | The index check computes ReadIndex. |
| `XzReader.CheckFooter` | libs/libafpkg/xz_decode.c:631-654 | The footer check, as one condition on its twelve bytes. |
| `XzReader.AfpkgXz` | libs/libafpkg/xz_decode.c:298-677 | The reader in place equals Xz and writes nothing outside its window. |
| `Capabilities.CoversIsSubset` | kernel/core/cap.c:175-208 | The mask test of lookup and derive holds exactly when, bit by bit, no right required is missing. |
| `Capabilities.PackResolves` | kernel/core/cap.c:84-125 | A packed handle resolves to its slot exactly while the slot's generation is below 2^24. |
| `Capabilities.NotOwnDescendant` | kernel/core/cap.c:271-298 | In a forest no slot descends from itself. |
| `Capabilities.ChainsAreShort` | kernel/core/cap.c:271-298 | In a forest every derivation chain is shorter than the number of live slots, so the recursion is bounded. |
| `CapabilityTables.CapTable.constructor` | kernel/core/cap.c:46-64 | A new table is empty. |
| `CapabilityTables.CapTable.Resolve` | kernel/core/cap.c:101-125 | The slot a handle names, or none. |
| `CapabilityTables.CapTable.Insert` | kernel/core/cap.c:130-158 | The lowest unused slot becomes a root; nothing else changes. |
| `CapabilityTables.CapTable.Lookup` | kernel/core/cap.c:163-184 | Granted exactly when the handle resolves and its rights include those required; the error tells which failed. |
| `CapabilityTables.CapTable.Derive` | kernel/core/cap.c:189-230 | The new slot has the parent's object, no more than its rights, and a link to it. |
| `CapabilityTables.CapTable.Delete` | kernel/core/cap.c:235-259 | The one slot is freed and its generation moves on. |
| `CapabilityTables.CapTable.RevokeChildren` | kernel/core/cap.c:271-298 | The recursion in place equals Walk, number of slots included, wherever Walk comes to an end. |
| `CapabilityTables.CapTable.Revoke` | kernel/core/cap.c:300-322 | On any table, unless the slot named is on a cycle of links: frees it and what Walk frees; where generations still fit handles that is exactly the slot and its descendants, every other slot is as it was, and `used` falls by that number. |
| `CapabilityAnswers.MayRevokeMeans` | kernel/core/cap.c:307-310 | The rights test of revocation is bit number four of the rights. |
| `CapabilityAnswers.RevokeAnswers` | kernel/core/cap.c:300-320 | AF_OK if and only if the handle resolves and its rights have number four, AF_ERR_PERM if and only if it resolves and they have not, AF_ERR_CAP_INVALID otherwise; refused, the table is unchanged, and accepted, exactly the slot and its descendants are freed. |
| `CapabilityAnswers.InsertAnswers` | kernel/core/cap.c:130-158 | A capability is made if and only if it names an object and a slot is free; exactly that slot then holds object, rights and no parent, and the handle names it while its generation is below 2^24. |
| `CapabilityAnswers.DeriveAnswers` | kernel/core/cap.c:189-230 | Exactly when each of the four answers is given; the new slot has the parent's object and the rights asked for, and descends from the parent if its handle resolves. |
| `CapabilityAnswers.DeleteAnswers` | kernel/core/cap.c:235-260 | AF_OK if and only if the handle resolves, and then it resolves no more; no other slot changes. |
| `CapabilityAnswers.DeriveThenRevoke` | kernel/core/cap.c:189-320 | Whoever may revoke takes back what he derives. |
| `CapabilityRevocations.RevocationEndsExactly` | kernel/core/cap.c:271-298 | The recursion on the children of a slot ends, for some number of nested calls, if and only if that slot is on no cycle of links. |
| `CapabilityRevocations.WalkFrame` | kernel/core/cap.c:271-298 | Whatever the table, a recursion that ends only frees slots, and only descendants. |
| `CapabilityRevocations.WalkClears` | kernel/core/cap.c:271-298 | Where generations still fit handles, it frees exactly the children still to be visited with everything derived from them, and counts them. |
| `CapabilityRevocations.LeftIsAll` | kernel/core/cap.c:271-298 | The loop over the table, children and their subtrees one after another, reaches every descendant. |
| `CapabilityRevocations.DescendantsAfterClear` | kernel/core/cap.c:286-293 | Freeing one subtree takes exactly it out of every other slot's descendants. |
| `CapabilityRuns.InsertKeepsForest` | kernel/core/cap.c:130-158 | No live slot comes to have a dead parent and no cycle appears. |
| `CapabilityRuns.DeriveKeepsForest` | kernel/core/cap.c:189-230 | The same for derive. |
| `CapabilityRuns.RevokeKeepsForest` | kernel/core/cap.c:300-322 | The same for revoke. |
| `CapabilityRuns.DeleteKeepsForestExactly` | kernel/core/cap.c:235-259 | Delete keeps it if and only if the slot has no live children. |
| `CapabilityRuns.DeleteThenDeriveMakesACycle` | kernel/core/cap.c:27-32 | Derive B from A, delete A, derive from B: the links form a cycle and the table is no forest, contrary to the comment. |
| `CapabilityRuns.RevokingTheCycleNeverEnds` | kernel/core/cap.c:264-298 | Revoking the capability that closes this cycle recurses for ever: no number of nested calls is enough. |
| `CapabilityRuns.CycleNeverEnds` | kernel/core/cap.c:27-32 | A walk along such links comes back to its start for ever. |
| `CapabilityRuns.AuthorityOnlyShrinks` | kernel/core/cap.c:189-230 | In every run, delete unrestricted, each live capability names the object and has a subset of the rights of an insertion of that run, the one at the root of its derivation. |
| `CapabilityRuns.RunsKeepForest` | kernel/core/cap.c:130-322 | In every run whose deletes hit leaves, the links are a forest along which rights shrink. |
| `CapabilityRuns.RunsAreRevocable` | kernel/core/cap.c:271-322 | After any such run of fewer than 2^24 - 1 operations every slot can be revoked by its handle, every revocation ends, and it frees all that was derived. |
| `CapabilityRuns.DeadHandlesStayDead` | kernel/core/cap.c:101-125 | A handle that stops resolving does not resolve again in the next 2^32 - 2^24 operations. |
| `CapabilityRuns.RevokedHandlesDie` | kernel/core/cap.c:300-322 | A revocation kills exactly the handles of the slot and its descendants. |
| `WaitLists.WaiterAdd` | kernel/core/ipc.c:77-91 | Relinks in place; the list is the old one with the thread at its end. |
| `WaitLists.WaiterRemove` | kernel/core/ipc.c:93-104 | The list without the thread, wherever it stood. |
| `WaitLists.WaiterPop` | kernel/core/ipc.c:106-114 | The head is the thread that has waited longest. |
| `Ipc.PutContents` | kernel/core/ipc.c:264-277 | Storing at the tail appends to the queue's contents, while there is room. |
| `Ipc.TakeContents` | kernel/core/ipc.c:317-331 | Taking at the head removes the first. |
| `Endpoints.EndpointObject.constructor` | kernel/core/ipc.c:136-165 | A new endpoint is empty with one reference. |
| `Endpoints.EndpointObject.SendPass` | kernel/core/ipc.c:245-301 | One pass of the send loop, in place, is SendAttempt: hand over, queue, refuse or wait. |
| `Endpoints.EndpointObject.RecvPass` | kernel/core/ipc.c:306-345 | One pass of the receive loop is RecvAttempt. |
| `Endpoints.EndpointObject.SendWoken` | kernel/core/ipc.c:293-299 | A woken sender leaves the list if still on it and looks again. |
| `Endpoints.EndpointObject.RecvWoken` | kernel/core/ipc.c:338-343 | A woken receiver does the same. |
| `Endpoints.EndpointObject.Hold` | kernel/core/ipc.c:167-172 | One more reference to a live endpoint. |
| `Endpoints.EndpointObject.Release` | kernel/core/ipc.c:174-214 | The last reference wakes every waiting thread and retires the endpoint. |
| `IpcRuns.StepKeepsSound` | kernel/core/ipc.c:245-345 | Every step of every thread keeps the wakeup accounting, wait lists without repetition, and the ring's shape. |
| `IpcRuns.NoWakeupIsLost` | kernel/core/ipc.c:245-345 | In every reachable state, while receivers wait there are at least as many woken and not yet resumed as messages queued, and likewise senders and free slots; so no receiver stays blocked with a message queued and no sender with room. |
| `IpcRuns.RoomForWaiters` | kernel/core/ipc.c:257-270 | With at most as many receivers as ring slots, queued messages and waiting receivers fit the ring together, which the unchecked hand-over needs. |
| `IpcRuns.StepKeepsOrder` | kernel/core/ipc.c:257-331 | Every step keeps: sent equals received followed by the ring from `head`. |
| `IpcRuns.MessagesStayInOrder` | kernel/core/ipc.c:257-331 | So in every run with at most that many receivers, messages come out once, in order, and none is lost. |
| `IpcAnswers.SendAnswers` | kernel/core/ipc.c:245-301 | On the state before: Sent if and only if the endpoint is used and a receiver waits or fewer than eight messages are queued; Again and Wait if and only if it is used, full and nobody waits, told apart by whether the thread may block; NoObject if and only if it is not used. Who is woken, and what the endpoint is afterwards. |
| `IpcAnswers.RecvAnswers` | kernel/core/ipc.c:306-345 | Received if and only if the endpoint is used and a message is queued, and then it is the first; Again, Wait and NoObject likewise, and who is woken. |
| `IpcAnswers.LivesWhileHeld` | kernel/core/ipc.c:167-214 | In every run an endpoint is used if and only if references less drops have not come to zero, and once retired nobody waits on it. |
| `IpcAnswers.ReceivesTheNext` | kernel/core/ipc.c:306-345 | In every run with at most eight receivers, a receive gets the next message sent and not yet received, and is refused or blocked if and only if there is none. |
| `IpcAnswers.AcceptsExactly` | kernel/core/ipc.c:245-301 | In those runs a send is accepted if and only if a receiver waits or fewer than eight messages are under way. |
| `IpcOverflow.OverflowReorders` | kernel/core/ipc.c:257-270 | With more receivers there is a run in which the hand-over overwrites a queued message and the wrong one is received. |
| `IpcOverflow.OrderNeedsTheBound` | kernel/core/ipc.c:257-270 | Order holds in every run if and only if no more threads receive than the ring has slots. |
| `Frames.BitWritten` | kernel/core/pmm.c:53-66 | Setting or clearing one bit of a byte changes that bit only. |
| `Frames.FreeCountOfRun` | kernel/core/pmm.c:384-390 | Taking a run lowers the number of free frames by its length. |
| `Frames.EveryFrameIsVisited` | kernel/core/pmm.c:358-371 | The search wrapping around from the hint visits every frame. |
| `Frames.AddOwnerIsSafeExactlyWhenHeld` | kernel/core/pmm.c:475-491 | Adding a reference keeps bitmap and counts consistent if and only if the frame is in use. |
| `Frames.FreedAtLastDrop` | kernel/core/pmm.c:493-512 | A frame with k references is freed by the k-th drop and by none before it. |
| `Frames.SharingLimit` | kernel/core/pmm.c:475-512 | The count saturates: as many drops as shares leave the frame in use if and only if there were at most 255 owners. |
| `Frames.TakeThenRelease` | kernel/core/pmm.c:344-463 | Releasing what an allocation took restores the state. |
| `Frames.FreeingUndoesAllocation` | kernel/core/pmm.c:465-470 | Freeing a run frame by frame, by address, undoes its allocation. |
| `Frames.FrameOfIsExact` | kernel/core/pmm.c:68-71 | A frame number cut to 32 bits is the address's own if and only if the address is below 2^44. |
| `Frames.FrameOfSum` | kernel/core/pmm.c:90-112 | That base + size wraps at 2^64 does not show in a frame number. |
| `Frames.RangesRound` | kernel/core/pmm.c:84-150 | Below 2^44, rounding outward counts exactly the frames a range overlaps, and rounding inward exactly those it contains. |
| `Frames.ReservationsReachExactly` | kernel/core/pmm.c:104-130 | A reservation counts exactly the frames the range overlaps if and only if the range ends at least a frame below 2^44. |
| `FrameAllocator.Pmm.constructor` | kernel/core/pmm.c:225-332 | After initialisation exactly the frames are free that lie inside a usable range, touch no range to be kept, and are not frame 0. |
| `FrameAllocator.Pmm.MarkRangeFree` | kernel/core/pmm.c:84-102 | Exactly the frames inside the range become free. |
| `FrameAllocator.Pmm.ReserveRange` | kernel/core/pmm.c:104-130 | Every frame the range touches is in use afterwards, owners as before, and the free count is exact. |
| `FrameAllocator.Pmm.ReleaseRange` | kernel/core/pmm.c:132-150 | Exactly the frames inside the range without an owner become free; validity survives if and only if frame 0 is not among them. |
| `FrameAllocator.Pmm.IsUsed` | kernel/core/pmm.c:53-56 | The bit of the frame. |
| `FrameAllocator.Pmm.MarkUsed` | kernel/core/pmm.c:58-61 | Sets the frame's bit and no other. |
| `FrameAllocator.Pmm.MarkFree` | kernel/core/pmm.c:63-66 | Clears the frame's bit and no other. |
| `FrameAllocator.Pmm.AllocOne` | kernel/core/pmm.c:356-373 | The first free frame in cyclic order from the hint; fails only when no frame is free. |
| `FrameAllocator.Pmm.AllocRun` | kernel/core/pmm.c:375-398 | The lowest free run that is long enough; fails only when there is none. |
| `FrameAllocator.Pmm.AllocFrames` | kernel/core/pmm.c:344-399 | Fails if and only if nothing was asked for or no free run is long enough. |
| `FrameAllocator.Pmm.FrameValid` | kernel/core/pmm.c:420-429 | Aligned, not the sentinel, number within the map. |
| `FrameAllocator.Pmm.FreeFrame` | kernel/core/pmm.c:431-463 | Frees if and only if the frame is valid, in use and not shared; for addresses below 2^44 the null page is safe. |
| `FrameAllocator.Pmm.FreeFrames` | kernel/core/pmm.c:465-470 | The loop frees frame after frame. |
| `FrameAllocator.Pmm.FrameRef` | kernel/core/pmm.c:475-491 | One more owner, up to 255; the state stays valid if and only if the frame was in use. |
| `FrameAllocator.Pmm.FrameUnref` | kernel/core/pmm.c:493-512 | One owner fewer; the last one frees. |
| `FrameAllocator.Pmm.LargestFreeRun` | kernel/core/pmm.c:549-564 | The answer is the length of some free run and no free run is longer. |
| `FrameRuns.StepRefines` | kernel/core/pmm.c:104-512 | Every allocation, share, drop, free, reservation and release keeps bitmap and counts equal to the callers' books. |
| `FrameRuns.RunsRefine` | kernel/core/pmm.c:104-512 | So in every run, counts are the references held and a bit is set exactly for a frame held or set aside. |
| `FrameRuns.GrantsAreNew` | kernel/core/pmm.c:344-399 | In every run, no frame that is held or set aside is ever granted. |
| `FrameRuns.FreeIsSafeExactlyWhenNotAside` | kernel/core/pmm.c:431-463 | Freeing an unshared frame keeps the books right if and only if it was not set aside: a reserved frame is freed like any other. |
| `FrameRuns.ReservationsOfHeldFramesLapse` | kernel/core/pmm.c:104-130 | Reserving a frame is forgotten at its last drop if and only if somebody held it. |
| `FrameRuns.FreeAnswers` | kernel/core/pmm.c:421-463 | Freeing by address frees exactly a frame in use with at most one holder; for a shared or free one, address 0 and addresses of no frame it changes nothing. |
| `FrameRuns.ShareAndDropAnswer` | kernel/core/pmm.c:475-513 | One holder more up to 255; one fewer, and with the last one the frame is free. |
| `SchedulerInvariant.PicksHead` | kernel/core/sched.c:190-205 | The pick is the head of the best non-empty level; the fallback to idle is taken only when idle itself is running. |
| `SchedulerInvariant.SwitchGood` | kernel/core/sched.c:223-297 | Switching away from a running or exiting thread keeps the invariant. |
| `SchedulerInvariant.LeaveGood` | kernel/core/sched.c:403-412 | So does the switch written out inside block and sleep. |
| `SchedulerInvariant.AdmitGood` | kernel/core/sched.c:312-331 | Admit keeps it. |
| `SchedulerInvariant.UnblockGood` | kernel/core/sched.c:418-425 | Unblock keeps it. |
| `SchedulerInvariant.YieldGood` | kernel/core/sched.c:365-376 | Yield keeps it and runs the thread picked. |
| `SchedulerInvariant.BlockGood` | kernel/core/sched.c:378-416 | Block keeps it; idle never blocks. |
| `SchedulerInvariant.SleepGood` | kernel/core/sched.c:427-455 | Sleep keeps it; idle and a sleep of no ticks do not leave the processor. |
| `SchedulerInvariant.ExitKeepsGood` | kernel/core/thread.c:254-274 | Exit of any thread but idle keeps it, with the zombie queue. |
| `SchedulerInvariant.WakeGood` | kernel/core/sched.c:457-470 | The wake-up scan keeps it. |
| `SchedulerInvariant.TickGood` | kernel/core/sched.c:336-360 | The tick keeps it, and switches exactly when the slice is used up or a switch was asked for. |
| `SchedulerInvariant.CollectGood` | kernel/core/sched.c:506-547 | Collecting keeps it and leaves no zombie. |
| `SchedulerRuns.StepGood` | kernel/core/sched.c:312-547 | Every operation keeps the invariant: one running thread on no queue, each runnable thread on exactly one queue exactly once at its clamped priority, blocked, sleeping and exited threads on none, lengths exact, idle running or queued. |
| `SchedulerRuns.WakesExactlyTheDue` | kernel/core/sched.c:457-470 | The scan wakes exactly the sleepers whose time has come and touches no other thread. |
| `SchedulerRuns.StepOnTime` | kernel/core/sched.c:336-360 | No operation leaves a thread asleep past its tick. |
| `SchedulerRuns.RunsStayGood` | kernel/core/sched.c:155-547 | Both hold in every state of every run from boot. |
| `SchedulerRuns.YieldIsUrgentExactly` | kernel/core/sched.c:7-9 | After a yield the running thread is as urgent as any queued if and only if nothing was queued or the best level was at least the yielder's: the strict priority promised there is not kept otherwise. |
| `SchedulerRuns.LeavingIsUrgent` | kernel/core/sched.c:378-455 | Blocking and sleeping always hand over to the most urgent thread. |
| `SchedulerRuns.YieldPrefersIdle` | kernel/core/sched.c:365-376 | The most urgent thread there can be yields to idle and then waits behind it. |
| `SchedulerPriority.StepIsUrgentExactly` | kernel/core/sched.c:7-9 | For every operation: the running thread is as urgent as any ready one afterwards if and only if a condition on the state before holds, given per operation. |
| `SchedulerPriority.TickIsUrgentExactly` | kernel/core/sched.c:336-360 | For a tick: one that switches needs a peer among the threads ready or due, or none of them; one that does not needs that none ready or due is more urgent. |
| `SchedulerPriority.WakingIsUrgentExactly` | kernel/core/sched.c:457-470 | The wake-up scan keeps strict priority if and only if no sleeper due is more urgent than the running thread. |
| `SchedulerPriority.PushIsUrgentExactly` | kernel/core/sched.c:312-331 | Making a thread ready, by admit or unblock, keeps it if and only if that thread is not more urgent: nothing preempts. |
| `SchedulerPriority.ExitIsUrgent` | kernel/core/thread.c:254-274 | An exit always hands over to the most urgent thread. |
| `SchedulerRuns.RoundRobin` | kernel/core/sched.c:365-376 | Threads that share the best level and keep yielding run in turn, each exactly once a round. |
| `SchedulerTime.StepMoves` | kernel/core/sched.c:155-547 | What every operation makes of every thread, and that it hands over the processor at most once, to a runnable thread, with a slice of two ticks. |
| `SchedulerTime.StepOf` | kernel/core/sched.c:155-547 | The same for one thread: its record after any operation, and that only exited threads disappear. |
| `SchedulerTime.SleepLasts` | kernel/core/sched.c:427-470 | After Sleep(n) by a thread other than idle, n > 0, it sleeps in every later state of the run while fewer than n ticks have passed, and is runnable or runs at the n-th. |
| `SchedulerTime.BlockLasts` | kernel/core/sched.c:378-425 | A thread that blocks is blocked in every state until it is unblocked, and then runnable. |
| `SchedulerTime.CreatedWaits` | kernel/core/thread.c:155-250 | A thread does not run before it is admitted, and is then runnable at the priority it was made with. |
| `SchedulerTime.SliceLasts` | kernel/core/sched.c:223-262 | In every run a thread given the processor that does not give it up keeps it through one tick and loses it at the second, unless it is idle. |
| `SchedulerTime.Accounts` | kernel/core/sched.c:336-363 | In every run the clock counts the ticks, each thread is charged for exactly those in which it ran, and switches counted are the times the processor changed hands. |
| `SchedulerTime.ExitIsFinal` | kernel/core/sched.c:472-520 | In every run an exited thread is kept while fewer than sixteen others exit and nobody collects, and is gone with the sixteenth or the collection. |
| `SchedulerOrder.MostUrgentIsNext` | kernel/core/sched.c:190-262 | Whenever the processor changes hands, no ready thread has a smaller priority number than the one that gets it. |
| `SchedulerOrder.NobodyOvertakes` | kernel/core/sched.c:64-112 | In every run, while a thread waits for the processor no thread of its priority that came later gets it. |
| `SchedulerObjects.Scheduler.constructor` | kernel/core/sched.c:155-185 | The state after boot satisfies the invariant. |
| `SchedulerObjects.Scheduler.RunqPush` | kernel/core/sched.c:64-85 | Appends at the clamped priority. |
| `SchedulerObjects.Scheduler.RunqPopHighest` | kernel/core/sched.c:87-112 | Takes the head of the best non-empty level. |
| `SchedulerObjects.Scheduler.RunqRemove` | kernel/core/sched.c:114-138 | Takes a thread out of the level that holds it and says whether one did. |
| `RunQueues.Level.Push` | kernel/core/sched.c:64-85 | One level as it lies in memory: relinked in place, the list is the old one with the thread at its end, the length exact. |
| `RunQueues.Level.Pop` | kernel/core/sched.c:87-101 | The head is taken off. |
| `RunQueues.Level.Remove` | kernel/core/sched.c:114-138 | The thread is unlinked wherever it stands; the answer says whether it was there. |
| `SchedulerObjects.Scheduler.PickNextThread` | kernel/core/sched.c:190-205 | Equals PickNext. |
| `SchedulerObjects.Scheduler.ReapThread` | kernel/core/sched.c:472-502 | Queues an exited thread, freeing the oldest of sixteen. |
| `SchedulerObjects.Scheduler.SwitchThread` | kernel/core/sched.c:223-297 | Equals SwitchTo. |
| `SchedulerObjects.Scheduler.Admit` | kernel/core/sched.c:312-331 | Equals its model and keeps the invariant. |
| `SchedulerObjects.Scheduler.Unblock` | kernel/core/sched.c:418-425 | Equals its model and keeps the invariant. |
| `SchedulerObjects.Scheduler.Yield` | kernel/core/sched.c:365-376 | Equals its model and keeps the invariant. |
| `SchedulerObjects.Scheduler.Block` | kernel/core/sched.c:378-416 | Equals its model and keeps the invariant. |
| `SchedulerObjects.Scheduler.Sleep` | kernel/core/sched.c:427-455 | Equals its model and keeps the invariant. |
| `SchedulerObjects.Scheduler.Exit` | kernel/core/thread.c:254-274 | Equals its model and keeps the invariant. |
| `SchedulerObjects.Scheduler.WakeDue` | kernel/core/sched.c:457-470 | The scan over thread ids equals WakeSleepers. |
| `SchedulerObjects.Scheduler.Tick` | kernel/core/sched.c:336-360 | Equals its model and keeps the invariant. |
| `SchedulerObjects.Scheduler.CollectZombies` | kernel/core/sched.c:506-547 | Equals its model. |
| `HeapModel.ObjectsFit` | kernel/core/heap.c:171-185 | Every object, with a guard band on either side, lies between the slab header and the end of the frame, aligned to 8. |
| `HeapModel.OffsetsApart` | kernel/core/heap.c:171-185 | Objects of a slab are apart, guard band included. |
| `HeapModel.EveryClassHasRoom` | kernel/core/heap.c:180-185 | Every size class fits at least one object in a frame. |
| `HeapModel.LargeFitsExactly` | kernel/core/heap.c:255-265 | With sums wrapping at 2^64 and the frame count cut to 32 bits, a large object lies inside the frames asked for if and only if its size + 8215 is below 2^44. |
| `HeapModel.LiveObjectsAreDisjoint` | kernel/core/heap.c:187-374 | In a good heap live objects of sizes below that bound, small or large, are pairwise disjoint, and no small one's guard band reaches into another. |
| `HeapModel.OwnedExactly` | kernel/core/heap.c:255-280 | All bytes of a live object lie in memory granted for it if and only if its size is below that bound. |
| `HeapRuns.MallocSmallAdds` | kernel/core/heap.c:337-374 | Exactly one object that was not live becomes live; fails only without room and without a frame. |
| `HeapRuns.MallocLargeAdds` | kernel/core/heap.c:255-280 | The same for whole frames, of any size; fails only without frames or when nothing is left of the cut frame count. |
| `HeapRuns.FreeSmall` | kernel/core/heap.c:415-441 | Exactly the object named stops being live. |
| `HeapRuns.FreeLarge` | kernel/core/heap.c:443-458 | The same for a large block. |
| `HeapRuns.StepGood` | kernel/core/heap.c:310-465 | Every step keeps: each free list holds exactly the objects not live, without repetition, in-use plus free is the capacity, frames are apart. |
| `HeapRuns.RunsStayGood` | kernel/core/heap.c:310-465 | In every state of every run. |
| `HeapRuns.LiveObjectsStayDisjoint` | kernel/core/heap.c:310-465 | So in every state of every run any two live objects of sizes below 2^44 - 8215 are disjoint, whatever else was allocated. |
| `HeapPromises.OverlapExactly` | kernel/core/heap.c:255-265 | Live objects of a size overlap in some run if and only if the size is 2^44 - 8215 or more and something is left of its frame count after the cut. |
| `HeapPromises.HugeObjectsOverlap` | kernel/core/heap.c:255-265 | The run: two requests of such a size, one after the other. |
| `HeapPromises.HugeRequestsGetTwoFrames` | kernel/core/heap.c:255-265 | A request of 2^44 bytes and the largest request there is get two frames each. |
| `HeapPromises.StrandedForEver` | kernel/core/heap.c:339-360 | In every run, a slab that is no longer the newest of its class stays behind, and its free objects stay free in every later state. |
| `HeapPromises.RoomIsRefused` | kernel/core/heap.c:351-360 | A run of two allocations and a free from the empty heap after which an object is free and the next allocation of its class fails. |
| `HeapPromises.RoomIsUsedExactly` | kernel/core/heap.c:339-360 | Without a new frame, an allocation succeeds when there is room in the class, and only then, if and only if any room there is is in the newest slab. |
| `HeapPromises.FramesAreSparedExactly` | kernel/core/heap.c:339-360 | With a frame to be had, no slab is opened beside room if and only if the same. |
| `HeapLedgers.LedgerIsKept` | kernel/core/heap.c:310-465 | In every run a ledger of requests lists exactly the live objects, each large enough, everything granted is what is still held and what was given back, and the counters count them. |
| `HeapLedgers.MallocSuits` | kernel/core/heap.c:116-124 | A pointer given for a request names a live object of at least that size, of one byte for a request of none: of the smallest of the eight classes that holds it, or of the size itself where none does. |
| `HeapLedgers.RequestsAreDisjoint` | kernel/core/heap.c:310-465 | In every state of every run the ranges of bytes asked for by the live requests are pairwise disjoint, below the bound on sizes. |
| `HeapLedgers.BytesAreLiveExactly` | kernel/core/heap.c:550-568 | The byte count is the sum of all requests ever granted; it is what the live allocations asked for, as reported, if and only if nothing was ever freed. |
| `HeapLedgers.FreedBytesAreCounted` | kernel/core/heap.c:555-558 | A run of one allocation and its free after which nothing is live and 2048 bytes are reported. |
| `KernelHeaps.KernelHeap.constructor` | kernel/core/heap.c:223-245 | An empty heap. |
| `KernelHeaps.KernelHeap.SlabCreate` | kernel/core/heap.c:187-218 | The free list threaded through the objects in memory is the list of all of them in order, and the guard bands of all are painted. |
| `KernelHeaps.KernelHeap.Kmalloc` | kernel/core/heap.c:310-374 | In place, through the words in memory, equals Malloc. |
| `KernelHeaps.KernelHeap.Kfree` | kernel/core/heap.c:406-465 | In place equals Free; refused exactly for a slab object whose guard bands, in memory, are damaged, and never as long as holders write only into their objects. |
| `KernelHeaps.KernelHeap.UserWrite` | kernel/core/heap.c:310-465 | Writing any byte of a live object that was granted for it, whatever becomes of the words that hold it, leaves every free list and every guard band intact. |
| `KernelHeaps.WriteIsApart` | kernel/core/heap.c:171-218 | Such a byte is in none of the eight bytes of any link of any free list. |
| `KernelHeaps.WriteMissesGuards` | kernel/core/heap.c:131-160 | Nor in any guard band. |
| `KernelHeaps.KernelHeap.HeapCheck` | kernel/core/heap.c:570-611 | On a valid heap the walk of every free list ends and finds nothing wrong. |
| `ElfModel.LoadsExactly` | kernel/core/elf.c:291-403 | By the segments' own numbers, loading succeeds if and only if every segment is acceptable, no two segments share a page with one another or with what is mapped, and there are frames enough. |
| `ElfModel.PagesCount` | kernel/core/elf.c:356-400 | The same for the pages of one segment. |
| `ElfModel.PagesShow` | kernel/core/elf.c:356-400 | Then all its pages show its image and everything mapped before is as it was. |
| `ElfModel.SegmentsShow` | kernel/core/elf.c:291-403 | Every page of every loaded segment shows that segment's image at the end. |
| `ElfModel.LoadedImage` | kernel/core/elf.c:384-400 | Byte for byte: memory holds the file byte at every address within [vaddr, vaddr + filesz) and zero elsewhere on the segment's pages. |
| `ElfModel.SegmentIsCovered` | kernel/core/elf.c:328-330 | Every address of a segment is on one of its pages. |
| `ElfLaws.FlagsMean` | kernel/core/elf.c:190-206 | A page is writable exactly when bit 1 of the segment's flag word is set and executable exactly when bit 0 is. |
| `ElfLaws.LoadedExactlyWhen` | kernel/core/elf.c:286-410 | In numbers: an image is loaded if and only if it has a segment of type 1 with memory, each of these has its file range in the file and no longer than its memory range, which begins below 2^44, no page is touched twice or mapped already, and there is a frame for every page. |
| `ElfLaws.EveryByteAfter` | kernel/core/elf.c:328-400 | Then every page touched holds, byte for byte, the file or zeros, and may be written and executed as the flag word says. |
| `ElfLaws.NothingElseAfter` | kernel/core/elf.c:356-400 | And nothing else is mapped or changed. |
| `ElfWords.TestIsMeantExactly` | kernel/core/elf.c:304-326 | In 64-bit arithmetic, a segment that passes the tests has its file range inside the file if and only if offset + filesz does not wrap. |
| `ElfWords.PageCountIs` | kernel/core/elf.c:328-330 | Pages are counted modulo 2^52, so the count is right if and only if it is below. |
| `ElfWords.CopyIsImage` | kernel/core/elf.c:384-399 | Where no sum wraps, the copy for each page stays inside file and frame and leaves exactly the segment's image there. |
| `ElfWords.LoadsAsMeant` | kernel/core/elf.c:291-403 | Where no sum of a segment that loads wraps, the loader in 64-bit arithmetic has the outcome the segments' own numbers call for, and never copies past the file or a frame. |
| `ElfWords.RangeWraps` | kernel/core/elf.c:306-310 | A segment at offset 8 with 2^64 - 8 bytes passes the tests, and its copy leaves the file. |
| `ElfWords.MemoryWraps` | kernel/core/elf.c:328-330 | A segment of 2^64 - 1 bytes of memory is loaded as no page at all. |
| `ElfWords.UserPagesExactly` | kernel/core/elf.c:334-339 | After a load every page mapped is a user page if and only if every segment also ends in the user part: the code tests where it starts. |
| `ElfWords.LoadsBeyondUser` | kernel/core/elf.c:334-339 | A segment of two pages, the second behind the user part, is loaded. |
| `ElfLoader.AddressSpace.FillPage` | kernel/core/elf.c:384-399 | The overlap arithmetic in place equals the copy of the model; it stops where the copy would leave file or frame. |
| `ElfLoader.AddressSpace.LoadOnePage` | kernel/core/elf.c:356-399 | One page: a fresh frame, mapped, zeroed, filled, equals LoadPageAt. |
| `ElfLoader.AddressSpace.LoadOneSegment` | kernel/core/elf.c:328-400 | The page loop equals LoadFrom, with the page count as computed. |
| `ElfLoader.AddressSpace.Load` | kernel/core/elf.c:291-403 | The segment loop equals ElfLoadWords, errors told apart, and ElfLoad where no sum wraps. |
| `FatNames.LongNameRoundTrip` | kernel/fs/fat32.c:284-347 | The reversed 13-unit fragments the writer makes, reassembled by the reader's prepend-and-shift, give back the name if and only if it has at most 254 characters. |
| `FatLaws.ChecksumValue` | tools/mkimage.py:375-379 | Known answer: the check sum of README.TXT is 0x73. |
| `FatLaws.TurnsRound` | tools/mkimage.py:375-379 | Eight zero bytes leave a check sum as it was: each step turns it by one bit. |
| `FatLaws.ShortNameOfFile` | tools/mkimage.py:308-334 | A name in two plain parts has as short name the first eight characters of the one and the first three of the other, in upper case, padded with blanks. |
| `FatLaws.EntryFields` | tools/mkimage.py:565-580 | Name, attributes, the halves of the first cluster and the size lie at bytes 0, 11, 20, 26 and 28 of an entry. |
| `FatLaws.LongEntryFields` | tools/mkimage.py:337-372 | Number, marks, check sum and every one of the thirteen units of every long-name entry, by byte. |
| `FatNameWriter.ShortNameChecksum` | tools/mkimage.py:375-379 | The rotate-and-add loop computes Checksum. |
| `FatNameWriter.LongNameEntries` | tools/mkimage.py:337-372 | Built in order, stored in reverse: the entries are LfnEntries. |
| `FatNameWriter.FillEntry` | tools/mkimage.py:350-367 | Thirteen units land in the three runs of an entry. |
| `FatDirectories.RecScanned` | kernel/fs/fat32.c:268-398 | The entries of one record, long or short, read back as that record. |
| `FatDirectories.DirectoryListed` | kernel/fs/fat32.c:232-404 | The records of a directory list in order, with nothing more behind them. |
| `FatDirectories.DirectorySearched` | tools/mkimage.py:393-419 | The writer's own search finds the first record with that short name. |
| `FatDirectories.LegalKey` | tools/mkimage.py:308-334 | A legal 8.3 name has itself, in upper case, as its search key. |
| `FatDisks.ChainGrows` | tools/mkimage.py:284-302 | Every link goes to a larger cluster. |
| `FatDisks.ChainsAreShort` | kernel/fs/fat32.c:256-261 | So a chain is shorter than the reader's guard and every walk ends. |
| `FatDisks.AllocateKeeps` | tools/mkimage.py:284-292 | Giving out a cluster disturbs no file and no directory. |
| `FatDisks.Adopt` | tools/mkimage.py:294-302 | A finished chain of new clusters becomes a file or directory, apart from all others. |
| `FatDisks.GrowDir` | tools/mkimage.py:472-480 | Extending a directory by a zeroed cluster keeps every file and directory. |
| `FatDisks.PutSlot` | tools/mkimage.py:482-486 | Filling the next free slot adds it to that directory and changes nothing else. |
| `FatLayouts.ClustersForIs` | tools/mkimage.py:294-302 | The writer's rounding: as many clusters as the size needs, one at least. |
| `FatWriter.Fat32Volume.constructor` | tools/mkimage.py:113-150 | A formatted volume holds an empty root directory. |
| `FatWriter.Fat32Volume.SetFat` | tools/mkimage.py:264-267 | Keeps 28 bits; a cluster beyond the table is refused. |
| `FatWriter.Fat32Volume.AllocateCluster` | tools/mkimage.py:284-292 | Gives out the next cluster, zeroed and ending a chain; fails exactly at the end of the volume. |
| `FatWriter.Fat32Volume.ChainForSize` | tools/mkimage.py:294-302 | A linked chain of the right number of new clusters; fails exactly when there are too few. |
| `FatWriter.Fat32Volume.WriteClusters` | tools/mkimage.py:558-564 | The chain's clusters hold the data, the last one filled with zeros. |
| `FatWriter.Fat32Volume.AppendEntry` | tools/mkimage.py:421-486 | The entries go behind those in use, the directory growing in mid-search where needed; every other file and directory is as it was. |
| `FatWriter.Fat32Volume.IterDir` | tools/mkimage.py:393-419 | Lists the short entries of the whole chain. |
| `FatWriter.Fat32Volume.FindEntry` | tools/mkimage.py:488-493 | Finds the first record with that short name in the model's directory. |
| `FatWriter.Fat32Volume.AddEntry` | tools/mkimage.py:528-538 | The directory of the model gains exactly that record. |
| `FatWriter.Fat32Volume.NewDirCluster` | tools/mkimage.py:508-526 | A new directory with "." and "..", in no directory yet. |
| `FatWriter.Fat32Volume.Mkdir` | tools/mkimage.py:495-542 | Cuts the path and enters or makes one directory after another; fails only on a full volume or a file in the way, and says which. |
| `FatWriter.Fat32Volume.WriteFile` | tools/mkimage.py:544-577 | Makes the directories; then refused as existing if and only if the name, in upper case, is the short form of some entry; otherwise a file with those bytes is added, unless the volume is full or the file has 4 GiB or more. |
| `FatModel.MadeKeeps` | tools/mkimage.py:495-542 | Making directories keeps the tree closed and only extends it. |
| `FatModel.WroteKeeps` | tools/mkimage.py:544-577 | So does writing a file. |
| `FatModel.SearchesAgree` | tools/mkimage.py:488-493 | For legal 8.3 directory names the writer's search by short name and the reader's by listed name find the same directory. |
| `FatModel.MadeIsFound` | kernel/fs/fat32.c:409-519 | The reader arrives at the directory that mkdir arrived at. |
| `FatModel.WrittenIsRead` | kernel/fs/fat32.c:646-699 | A file written under a name new to its directory is found with its bytes; under a name already listed there the earlier entry stays the one found. |
| `FatModel.ReadsStay` | tools/mkimage.py:544-577 | What can be read once reads the same after anything else is written. |
| `FatAgreement.RunsStaySound` | tools/mkimage.py:495-577 | Every session keeps the tree sound. |
| `FatAgreement.EveryNewFileIsRead` | tools/mkimage.py:495-577 | In every session, every file written under a new name reads back as its bytes at every later point. |
| `FatTrees.DotsLeadBack` | tools/mkimage.py:508-530 | In every session, from every directory but the root, .. leads the reader to a directory that has it and . to itself. |
| `FatTrees.FoundMeans` | kernel/fs/fat32.c:471-491 | The reader finds the first entry with the name, letter by letter and case aside, and none if and only if there is none. |
| `FatTrees.CaseDoesNotMatter` | kernel/fs/fat32.c:471-491 | Paths that agree but for case lead to the same entry. |
| `FatAgreement.LongNamesAreNeverFound` | tools/mkimage.py:488-493 | The writer never finds a name of more than twelve characters, even right after writing it. |
| `FatAgreement.SecondWriteIsLost` | tools/mkimage.py:544-577 | So a second write under such a name is accepted, and the reader keeps returning the first bytes. |
| `FatAgreement.RefusedThoughNewExactly` | tools/mkimage.py:550-551 | A name that is not in the directory is refused if and only if it is the short form of an entry with another name. |
| `FatAgreement.ShortFormIsRefused` | tools/mkimage.py:550-551 | With "A B" there, "AB" is refused. |
| `FatPaths.SplitIsParts` | tools/mkimage.py:495-498 | The builder splits a path at every slash of either kind and drops the empty pieces: these are the components the driver finds. |
| `FatPaths.PathsAgree` | kernel/fs/fat32.c:416-456 | For every path string that names a file, the directories and the name the builder makes of it are the components the driver reads. |
| `FatPaths.ReadComponents` | kernel/fs/fat32.c:422-456 | The cursor loop finds exactly the components. |
| `FatReader.DirectoryIs` | kernel/fs/fat32.c:232-404 | On any volume the writer built, the listing read from the clusters is the directory of the model. |
| `FatReader.LookupIs` | kernel/fs/fat32.c:409-519 | Path lookup on the volume is lookup in the model, up to the depth limit. |
| `FatReader.ContentsAre` | kernel/fs/fat32.c:558-635 | Reading any number of bytes from any offset gives that window of the file. |
| `FatReader.WindowsJoin` | kernel/fs/fat32.c:558-635 | Consecutive reads join up. |
| `FatReader.ImageAgrees` | kernel/fs/fat32.c:646-699 | Reading a path from the volume gives the model's bytes if they fit, the overflow error if not, and an error when there is no such file. |
| `FatReader.SessionAgrees` | kernel/fs/fat32.c:646-699 | End to end: after any session, the driver reads every newly written file from the clusters exactly as written, empty ones and those in directories that grew included. |
| `FatReader.PathAgrees` | kernel/fs/fat32.c:646-699 | The same for path strings: the string the file was written under is the string to read it by. |
| `FatDriver.CollectName` | kernel/fs/fat32.c:284-347 | The name buffer shifted in place holds the reassembled name so far. |
| `FatDriver.Fat32Readdir` | kernel/fs/fat32.c:232-404 | The cluster walk with its entry counter and guard returns entry number `index`, end or corruption. |
| `FatDriver.Fat32Lookup` | kernel/fs/fat32.c:409-519 | Cuts the path string and follows its components: computes LookupPath. |
| `FatDriver.SameName` | kernel/fs/fat32.c:471-491 | Exact comparison first, then case aside: equality of the upper-cased names. |
| `FatDriver.OpenFile.Read` | kernel/fs/fat32.c:558-635 | Reads from the offset and moves it by what was read. |
| `FatDriver.Fat32ReadFile` | kernel/fs/fat32.c:646-699 | From a path string: lookup, size check and reading compute ReadFile. |
| `FatGeometry.NeededIsAntitone` | tools/mkimage.py:160-186 | A larger table leaves room for fewer clusters, which need no larger table. |
| `FatGeometry.ComputeGeometry` | tools/mkimage.py:155-186 | The iteration settles by its second round, or the volume is too small; it never fails to converge. |
| `FatGeometry.SettledDescribesAll` | tools/mkimage.py:155-186 | The settled table has an entry for every cluster. |
| `FatGeometry.ClusterInside` | kernel/fs/fat32.c:173-177 | Every cluster lies in the volume behind the tables. |
| `FatGeometry.ClustersApart` | kernel/fs/fat32.c:173-177 | No two clusters overlap. |
| `FatGeometry.EntryInside` | kernel/fs/fat32.c:180-197 | A table entry lies inside one sector of its table, where the reader looks for it. |
| `FatGeometry.GeometryVector` | tools/mkimage.py:155-186 | Known answer: 64 MiB with clusters of one sector have two tables of 1024 sectors and 128992 clusters. |

## Left out

- Error texts: operations return statuses; checks for null pointers have no counterpart.
- Capability table: creation and destruction of tables, object type names, and the counters other than `used`.
- CapabilityTables.CapTable.Revoke: requires that the slot named is on no cycle of links, which `CapabilityRevocations.RevocationEndsExactly` shows is exactly when the recursion of the code ends; how deep a call stack may grow is not modelled.
- CapabilityTables.CapTable.RevokeChildren: the same requirement.
- IPC: `ipc_call` and `ipc_reply` (a send, then a receive, on an endpoint of their own), the table of endpoint ids, capability-checked wrappers; an endpoint slot is not reused while a woken thread has yet to resume.
- IpcRuns.MessagesStayInOrder: at most as many receivers as ring slots, which `IpcOverflow.OrderNeedsTheBound` shows is exactly the condition.
- Endpoints.EndpointObject.SendPass: one pass of the retry loop; what happens while the thread is blocked is the other steps of `IpcRuns`.
- SchedulerObjects.Scheduler.RunqPush: the queues of the whole scheduler are sequences; `RunQueues` has one level as it is linked in memory.
- SchedulerObjects.Scheduler.RunqPopHighest: the same.
- SchedulerObjects.Scheduler.RunqRemove: the same.
- Scheduler: register contexts, the address space installed by a switch, wait objects and statistics; idle does not exit.
- FrameAllocator.Pmm.constructor: where the bitmap is placed and which regions the boot information lists are parameters; a map of fewer than 1024 frames, which the code refuses, is not constructed.
- KernelHeaps.KernelHeap.UserWrite: bytes inside the frames granted, which are all bytes of the object exactly for sizes below 2^44 - 8215 (`HeapModel.OwnedExactly`); the others are other people's memory.
- Heap: `krealloc`, `kzalloc`, alignment beyond 8, log output; memory is words, a byte written makes the words that hold it anything; frees are of live objects or of null, and a pointer from elsewhere is refused by the code after a look at memory the heap does not own.
- ELF: header validation, stack, entry into user mode; page tables are a map that refuses a page it has. On failure pages already mapped stay, as in the code, and are the caller's. What a copy that leaves the file does to memory is not modelled: loading stops there with a status of its own.
- GzipWriter.WritesAMember: up to 65535 * (2^20 + 1) bytes, beyond which the decoder's block limit is passed.
- Tar: the reader does not verify the header checksum, so the model does not either; `TarTheorems.TarRoundTrip` is about names, modes and sizes that fit their fields. Sizes beyond 64 bits do not occur in a twelve-byte field.
- The ar archive walker and its writer: the same kind of round trip as tar, with simpler fields.
- Package.ReadApk: ends with the list of entries; `.PKGINFO` and Debian control fields and install scripts are left out. Debian and Arch packages, zstd.
- LZMA-compressed chunks: the code refuses them and so does the model.
- FatWriter.Fat32Volume.constructor: a volume is its table and its clusters, and `FatGeometry` says where they lie; boot sector, FSInfo sector and the byte layout of a sector are left out, and so is the table of open files.
- FatWriter.Fat32Volume.Mkdir: names are ASCII, 1 to 254 characters; other encodings of names are left out.
- FatWriter.Fat32Volume.WriteFile: the same.
- FatReader.SessionAgrees: legal 8.3 directory names, at most 32 directories deep, clusters of at most 64 KiB, which is what the driver accepts.
- FatAgreement.EveryNewFileIsRead: the name is new, case aside, in its directory; `FatAgreement.SecondWriteIsLost` shows the other case.
- Paging, processes, program format detection, framebuffer, drivers, boot: device and interface code without state of this kind.
