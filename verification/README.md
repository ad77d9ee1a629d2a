# Verified models of the PS Vita reverse-engineering tools

Dafny models of the algorithms in this repository that have something hard to get right, with machine-checked proofs of
what they promise. `dafny verify dfyconfig.toml` checks everything.

**ARZL decompression** (`ArzlCoder`, `ArzlLayout`, `ArzlNumbers`, `ArzlFormat`, `ArzlReading`, `ArzlBounds`,
`ArzlRoles`, `ArzlTrace`, `ArzlTheorems`, `ArzlHistory`, `ArzlDecoder`, `ArzlPostPass`, `ArzlMasks`, `Unarzl`,
`ArzlSample`). A `Decision` is a question the range decoder asks (a modelled bit, a renormalisation, a plain halving)
with its answer; the *script* of a token is the list of decisions an encoder makes for it. The decoder reads a token
exactly when its stream follows the token's script, and the code values in the encoder's interval for a script make it
do so. The *course* of a run is the tokens it accepts and what it reads last: a token it cannot write, the end mark, or
a distance slot outside the table. Every stream has exactly one course, every course has a stream, and the course
decides the outcome (`OutcomeExactly`, `StreamExists`); round trips, the converse and the exact conditions of failure
come from this. The *trace* of a run lists what the decoder does on an arbitrary input, for the bounds on probabilities
and range. The class `Decoder` is the program itself, with registers, the probability array and the output buffer
updated in place. `ArzlHistory` says which contexts the bits are asked in from the tokens alone, and `ArzlSample`
follows one stream bit by bit. The post-pass is modelled on halfwords, and `MadeFrom` states what each version is for,
word by word, without the pass; `ArzlMasks` relates the masks and shifts of the original to quotients and remainders.

**Streaming SHA-256** (`Sha256Functions`, `Sha256Spec`, `Sha256Stream`, `Sha256Sample`). FIPS 180-4 as functions, with
the constants proved to be the fractional parts of the roots of the first primes, a digest worked through round by
round, and the buffered in-place implementation against it.

**The USB log** (`RingBuffer`, `LogProtocol`, `LogLedger`, `UsbSender`). The ring of pointers refines a bounded queue;
producers and consumers are threads interleaved step by step around one mutex and one event flag; the ledger of a run
says which call moved which bytes; the sender is the state machine of its labels.

**SCE relocations** (`ArmImmediates`, `ArmCodes`, `Relocate`, `RelocateSamples`). The instruction encodings with
independent decoders, what each relocation code asks of the new word (`Relocated`), and the effect of a whole relocation
table on memory.

**Smaller algorithms.** Two replace-all implementations (`ReplaceAll`), error short codes and their brute-force inverse
(`ShortCode`), the re-layout of SELF segments (`SelfLayout`).

Where the code does not do what one would expect, the model follows the code:

- ARZL distance slots from 19 to 27 use cells that belong to other tables, slot 28 has cells of its own, and slots from
  29 on lie outside the array (`SharedSlots`, `SlotsInMemory`). The model follows the code up to slot 28 and reports an
  undefined outcome after that. Sharing cells does no harm: scripts and round trips hold for all distances below 2^29,
  and no state of any run is stuck (`EveryStateAlive`). Slots up to 18 keep stronger bounds (`EveryStateBounded`).
- No coded ARZL stream decodes to nothing (`CodedIsNotEmpty`); the empty content has a stored stream
  (`EveryContentEncodable`).
- `unarzl` takes the error code for a bad distance for a length: it makes one turn of the post-pass and reports that
  many bytes (`Unpack`). This happens exactly for streams that go on, after tokens that fit, with a copy that reaches
  back beyond the first byte (`BadDistanceExactly`), and there are such streams (`BadDistanceStream`).
- The capacity of `unarzl`'s buffer is doubled modulo 2^32. From a size of 0 it stays 0, and the loop ends exactly for an
  empty stored block (`EndsFromZero`).
- The ring buffer is a queue exactly when one more than the base of its block has no common factor with its length
  (`QueueExactly`), and then holds length - 1 bytes exactly when the block is aligned to its length (`AlignedExactly`).
  Otherwise it is never full and looks empty after `length` unread bytes, and sooner too (`NeverFull`), as in a block of
  0x3000 bytes at 0x2000 (`FailingBlock`).
  The log's own ring of 0x2000 bytes works in every block that starts on a page, with half the capacity if the block is
  not aligned (`LogRing`).
- A waiting get is sure to return something exactly when no two threads get (`PaysExactly`).
- A branch relocation out of reach writes the value of the relocation before it (`StaleWrites`), unless the segment's
  size forbids the write. For disjoint entries, the result is independent of the table's order and of the value the
  loop starts with, and relocating twice is relocating once, exactly when no entry does that (`OneOutcomeExactly`,
  `SettlesExactly`). Entries whose offset exceeds the size of the *table* are skipped, as in the code.
- `sha256_vector` cuts the length of each piece to 32 bits; `DigestVector` says what is hashed then, and it is the whole
  of the pieces exactly when all are shorter than 2^32 bytes (`PiecesExactly`).
- For entries past the table's limit the resolver prints a word that no argument supplies. Searching for such a text
  finds the first entry past the limit that happens to print it (`PastLimitSearch`); searching for the short code of an
  entry fails exactly when an earlier one reads the same and one of the two is cut (`SearchInvertsExactly`), which does
  happen (`ClashHappens`).

## Model

| member | source | states |
|---|---|---|
| ArzlCoder.DecodingInvertsEncoding | unarzl/src/unarzl.c:131-150 | from any code value in the encoder's final interval the decoder gets exactly the encoded bits, modelled, slow, fast or plain, uses exactly the encoded digits, and has code < range after every decision |
| ArzlCoder.IntervalsNest | unarzl/src/unarzl.c:131-150 | the interval of any decision sequence lies inside the range it started from, through all renormalisations |
| ArzlCoder.PushAllEncodes | unarzl/src/unarzl.c:131-150 | an encoder that keeps a running low end and mirrors the decoder's bounds ends with that interval |
| ArzlLayout.CellsDistinct | unarzl/src/unarzl.c:117-158 | no two (table, context) pairs with slots up to 18 share a probability cell |
| ArzlLayout.SharedSlots | unarzl/src/unarzl.c:423-456 | among the slots in memory, exactly 19 to 27 have a cell that another table uses |
| ArzlLayout.SlotsInMemory | unarzl/src/unarzl.c:109-117 | the cells of a slot are inside the array if and only if the slot is at most 28 |
| ArzlRoles.OneRolePerBit | unarzl/src/unarzl.c:123-581 | in every run with slots up to 18, however it ends, every modelled bit uses a cell with exactly one role |
| ArzlFormat.LiteralContextBits | unarzl/src/unarzl.c:123-125 | which bits of the previous byte and of the position select the literal table, for each shift |
| ArzlFormat.NumberRanges | unarzl/src/unarzl.c:213-369 | a length of class k decodes into [2^k, 2^(k+1)), a distance of slot s into [2^s, 2^(s+1)) |
| ArzlBounds.AdaptBounded | unarzl/src/unarzl.c:138-150 | adaptation keeps fast probabilities in [7, 248] and slow ones in [15, 240] |
| ArzlBounds.AdaptConverges | unarzl/src/unarzl.c:138-150 | adaptation moves a probability towards the bit it met and comes to rest exactly at those bounds |
| ArzlBounds.TokenSafe | unarzl/src/unarzl.c:153-581 | no decision of a token takes the range below 2 or a probability out of bounds, and the next token starts with a range of at least 6750; with slot up to 18 these are 2^11 and 2^16 |
| ArzlBounds.DecoderStateBounded | unarzl/src/unarzl.c:117-150 | at every point of every run of well-formed tokens and whatever is read last the probabilities are in bounds and the range is at least 2, with slots up to 18 at least 2^11 |
| ArzlTrace.EveryStateBounded | unarzl/src/unarzl.c:111-609 | probabilities in bounds and a range of at least 2^11 in every state on every input, ending well, in a bad distance or for want of space, up to the first slot above 18 |
| ArzlTrace.RunTraceEnds | unarzl/src/unarzl.c:121-609 | a run without slots above 18 has a defined outcome, and whatever the outcome the decoder after its trace is the one in which it stops, so no state is missed |
| ArzlTrace.EveryStateAlive | unarzl/src/unarzl.c:111-609 | in every state of every coded run, whatever its slots and outcome, the probabilities are in bounds and the range is at least 2, and the run stops after the last of these states |
| ArzlReading.LengthReads | unarzl/src/unarzl.c:213-369 | a length is read from a stream exactly when the stream follows that length's script |
| ArzlReading.TokenReads | unarzl/src/unarzl.c:121-581 | a token is read from a stream exactly when the stream follows the token's script |
| ArzlReading.ReadingReads | unarzl/src/unarzl.c:121-581 | the same for the end mark and for a distance slot outside the table |
| ArzlTheorems.EncodingExists | unarzl/src/unarzl.c:111-121 | every course has a non-empty interval of code values that four bytes and the counted digits can hold |
| ArzlTheorems.OutcomeExactly | unarzl/src/unarzl.c:111-609 | the decoder accepts given tokens and stops at a given reading if and only if the stream follows their script, they fit, and the reading ends the run; that decides the outcome, success or not |
| ArzlTheorems.CourseRoundTrip | unarzl/src/unarzl.c:111-609 | for every course, header and code value in its interval, decompression has the outcome of the course, whatever follows the stream |
| ArzlTheorems.StreamExists | unarzl/src/unarzl.c:111-609 | every course that a capacity allows is the course of some stream |
| ArzlTheorems.TokenRoundTrip | unarzl/src/unarzl.c:111-609 | for every well-formed token sequence, distances below 2^29 included, every header and code value in its interval, decompression returns the LZ expansion and the end of the stream, whatever follows |
| ArzlTheorems.ContentEncodable | unarzl/src/unarzl.c:111-375 | every non-empty content has a stream that decodes to it into a buffer of exactly its size |
| ArzlTheorems.CodedIsNotEmpty | unarzl/src/unarzl.c:121-159 | a coded stream that succeeds gives between one byte and the capacity |
| ArzlTheorems.EveryContentEncodable | unarzl/src/unarzl.c:111-615 | every content has a stream that decodes to it into a buffer of its size, a stored one only if it is empty |
| ArzlTheorems.DecodesExactlyScripts | unarzl/src/unarzl.c:111-609 | decompression succeeds with given tokens if and only if they are well formed, fit, and the stream follows their script up to the end mark |
| ArzlTheorems.BadDistanceExactly | unarzl/src/unarzl.c:584-585 | decompression reports a bad distance if and only if the stream follows the script of well-formed tokens that fit and then of one copy whose distance exceeds what they produced |
| ArzlTheorems.BadDistanceStream | unarzl/src/unarzl.c:584-585 | every capacity but 0 has a stream that ends in a bad distance |
| ArzlTheorems.CopyRepeats | unarzl/src/unarzl.c:583-599 | a match copy is the one extension in which every new byte repeats the one `distance` before it, overlap included |
| ArzlTheorems.CapacityIndependence | unarzl/src/unarzl.c:584-608 | a larger buffer never changes an answer, and a buffer too small for a success reports exactly that |
| ArzlHistory.ScriptByParts | unarzl/src/unarzl.c:121-609 | the script of a stream is made of a part for each token, asked in the context that the tokens before it leave: seven after a copy, one less for every literal since, down to zero, and zero before the first copy; previous byte and position are those of the output so far |
| ArzlHistory.ContextsAsked | unarzl/src/unarzl.c:153-605 | each part begins with its flag at cell 2920 + h, and a copy or the end mark goes on with class bits at 2928 + 8 step + h and number bits in the cells of that class with h as their low three bits, for that context h |
| ArzlSample.KnownStream | unarzl/src/unarzl.c:105-609 | a given stream of 15 bytes with two literals, an overlapping copy, a literal, a short copy and the end mark decodes to its 107 bytes |
| ArzlDecoder.Decoder.constructor | unarzl/src/unarzl.c:111-121 | the registers and the probability array start as the header byte and the first four code bytes say |
| ArzlDecoder.Decoder.DecodeBit | unarzl/src/unarzl.c:131-150 | one in-place modelled bit is the format's, range, code, position and probabilities included |
| ArzlDecoder.Decoder.DecodeTree | unarzl/src/unarzl.c:126-152 | the bit-tree loop ends at the leaf that the format's reader finds |
| ArzlDecoder.Decoder.DecodeNumber | unarzl/src/unarzl.c:215-369 | the nested branches on the class or slot read the same bits, in order, as the format's list of sources |
| ArzlDecoder.Decoder.DecodeClass | unarzl/src/unarzl.c:172-211 | the unary loop counts the length class, at most seven |
| ArzlDecoder.Decoder.DecodeDistance | unarzl/src/unarzl.c:376-582 | slot and distance are read as the format says, for short and long copies |
| ArzlDecoder.Decoder.CopyMatch | unarzl/src/unarzl.c:583-599 | the copy loop, with its one byte of read-ahead, produces the LZ copy and writes nothing else |
| ArzlDecoder.Decoder.Decompress | unarzl/src/unarzl.c:6-609 | the in-place decompressor returns the specified outcome for every coded stream, capacity and old buffer content, terminates, and leaves the bytes after the result alone |
| ArzlDecoder.DecompressInto | unarzl/src/unarzl.c:6-616 | the same for streams of both kinds, stored blocks included, and nothing is written past the capacity |
| ArzlPostPass.FirstHalfKind | unarzl/src/unarzl.c:641-657 | rewriting never changes whether a halfword starts an instruction |
| ArzlPostPass.PassInverts | unarzl/src/unarzl.c:635-702 | for every version the opposite pass restores every buffer, the back-up-by-two stride included |
| ArzlPostPass.VersionsInvert | unarzl/src/unarzl.c:635-702 | versions 0 and 1 undo each other and version 2 has a two-sided inverse |
| ArzlPostPass.RunMakes | unarzl/src/unarzl.c:635-702 | at every word that the pass looks at, version 1 adds the offset of the next word to the 22-bit target of a branch, versions 0 and 2 take it off, version 2 exchanges the nibbles of a MOVT; every other byte stays |
| ArzlPostPass.OneResult | unarzl/src/unarzl.c:635-702 | no other buffer meets that description |
| ArzlMasks.TestsMean | unarzl/src/unarzl.c:641-649 | the three mask tests on the 32-bit word are the tests that the pass makes on quotients and remainders of its halves |
| ArzlMasks.MovedBranchMeans | unarzl/src/unarzl.c:645-647 | the branch that the masks and shifts store is the moved branch of the pass; of the sum or difference only the low 22 bits matter, so wrapping at 2^32 does not |
| ArzlMasks.ExchangedMeans | unarzl/src/unarzl.c:651-652 | the masks and shifts exchange the nibbles that the pass exchanges |
| ArzlPostPass.Deobfuscate | unarzl/src/unarzl.c:618-705 | the in-place loop makes of the buffer and three slack bytes what its version is for, and changes nothing else; a negative length makes one turn |
| Unarzl.EnoughIsEnough | unarzl/src/unarzl.c:712-716 | an attempt gives the answer of a big enough buffer or runs out of space in a smaller one |
| Unarzl.Unpack | unarzl/src/unarzl.c:707-723 | from any size, if some attempt ends the doubling loop, it ends with the bytes that version 2 of the post-pass is to make of the content of the stream, or with the bad-distance code as length; capacities wrap at 2^32 and lengths are signed as in the code |
| Unarzl.EndsFromAnySize | unarzl/src/unarzl.c:712-716 | from any size between 1 and 2^31 - 1 the loop ends if a buffer of at most 2^31 bytes settles the stream with a content below 2^31 bytes or a bad distance |
| Unarzl.EndsFromZero | unarzl/src/unarzl.c:712-716 | from size 0 the loop ends if and only if the file holds an empty stored block |
| Sha256Spec.RoundConstantsAreCubeRoots | elf_injector/src/sha256.c:9-18 | each round constant is the first 32 bits of the fractional part of the cube root of its prime, and the primes are the first 64, none left out |
| Sha256Spec.InitialIsSquareRoots | elf_injector/src/sha256.c:66-73 | each word of the hash value that digests start from is the first 32 bits of the fractional part of a prime's square root |
| Sha256Spec.ZeroCountLeast | elf_injector/src/sha256.c:97-109 | the padding has the least number of zeros that leaves the length at the end of a block |
| Sha256Functions.ChChooses | elf_injector/src/sha256.h:12 | CH takes each bit from its second or third argument as the first one says |
| Sha256Functions.MajIsMajority | elf_injector/src/sha256.h:13 | MAJ is the bitwise majority of its arguments |
| Sha256Functions.SigmaBits | elf_injector/src/sha256.h:14-17 | every bit of the four sigma functions is the exclusive or of the three bits that the standard names |
| Sha256Spec.HashBlocksConcat | elf_injector/src/sha256.c:76-89 | blocks are compressed one after the other |
| Sha256Sample.KnownDigest | elf_injector/src/sha256.c:20-135 | the digest of the octets of "abc" is the known one, octet by octet |
| Sha256Stream.LengthOctets | elf_injector/src/sha256.c:112-120 | the two counter words, byte by byte, are the 64-bit length field |
| Sha256Stream.PaddedTwice | elf_injector/src/sha256.c:103-109 | the path over two blocks pads as the standard does |
| Sha256Stream.Context.Transform | elf_injector/src/sha256.c:20-59 | the in-place transform is the standard's compression of the block in the buffer |
| Sha256Stream.CountsMore | elf_injector/src/sha256.h:7-8 | the hand-made carry adds modulo 2^64, at the wrap of either word too |
| Sha256Stream.Context.AddBits | elf_injector/src/sha256.h:7-8 | the two-word addition is addition modulo 2^64, carry included |
| Sha256Stream.Context.Update | elf_injector/src/sha256.c:76-89 | after any update the context stands for the old message followed by the new bytes |
| Sha256Stream.Context.PadTail | elf_injector/src/sha256.c:95-109 | on both paths the blocks hashed, the buffer and the length field make up the padded message |
| Sha256Stream.Context.Final | elf_injector/src/sha256.c:91-135 | the output is the FIPS 180-4 digest of the whole message, however it was split |
| Sha256Stream.DigestVector | elf_injector/src/sha256.c:145-155 | the vector function gives the digest of the concatenated pieces, each cut to its length modulo 2^32 |
| Sha256Stream.PiecesExactly | elf_injector/src/sha256.c:152-153 | the cut pieces join to the whole ones if and only if all are shorter than 2^32 bytes |
| RingBuffer.QueueExactly | PSMLogUSB/src/ringbuf.c:53-85 | the pointers make a queue, full before it could look empty, if and only if base mod length plus one is coprime to the length |
| RingBuffer.NeverFull | PSMLogUSB/src/ringbuf.c:53-67 | where they do not make a queue, the ring is full after no number of puts and looks empty after `length` puts, and after fewer |
| RingBuffer.FailingBlock | PSMLogUSB/src/ringbuf.c:53-67 | a block of 0x3000 bytes at 0x2000 is one of these and looks empty after 0x1000 puts |
| RingBuffer.AlignedExactly | PSMLogUSB/src/ringbuf.c:53-67 | after length - 1 puts the full test holds if and only if the block is aligned to its length |
| RingBuffer.LogRing | PSMLogUSB/src/main.c:52-52 | the log's ring works in every block that starts on a page, and what it holds |
| RingBuffer.ClobberKeepsNewest | PSMLogUSB/src/ringbuf.c:78-85 | clobbering puts leave the newest bytes of old contents and data, as many as fit |
| RingBuffer.Ring.Full | PSMLogUSB/src/ringbuf.c:65-67 | the pointer test says whether the queue is at its capacity, in every block that makes a queue |
| RingBuffer.Ring.Put | PSMLogUSB/src/ringbuf.c:69-76 | a put appends, or refuses exactly when the ring is full |
| RingBuffer.Ring.PutClobber | PSMLogUSB/src/ringbuf.c:78-85 | a clobbering put drops the oldest byte exactly when the ring is full |
| RingBuffer.Ring.Get | PSMLogUSB/src/ringbuf.c:87-94 | a get takes the oldest byte, or refuses exactly when the ring is empty |
| RingBuffer.Ring.PutAll | PSMLogUSB/src/ringbuf.c:143-161 | as many bytes as fit are appended in order, and the flag means non-empty afterwards |
| RingBuffer.Ring.PutAllClobber | PSMLogUSB/src/ringbuf.c:163-178 | the newest bytes of old contents and data remain, as many as the capacity, and the flag means non-empty afterwards |
| RingBuffer.Ring.GetAll | PSMLogUSB/src/ringbuf.c:180-198 | the oldest bytes are returned, the rest remain, and the flag means non-empty afterwards |
| LogProtocol.StepKeepsInvariant | PSMLogUSB/src/ringbuf.c:143-224 | every step of every thread keeps mutual exclusion and the meaning of the event flag |
| LogProtocol.NoLostWakeUp | PSMLogUSB/src/ringbuf.c:143-224 | over all interleavings, whenever the mutex is free the flag is set exactly when the buffer has bytes, so no waiter is left behind |
| LogProtocol.BytesConserved | PSMLogUSB/src/ringbuf.c:69-94 | over all interleavings, bytes put are those delivered, dropped and queued, the queue being the newest |
| LogLedger.WrittenIsAsked | PSMLogUSB/src/ringbuf.c:143-224 | over all interleavings the bytes written are the data of the puts, whole for clobbering puts and up to a full queue for the others, in the order of the mutex, and the bytes delivered are those of the gets, which stop short only at an empty queue; each thread performs the puts it was asked for, in order |
| LogProtocol.WaitingGetPays | PSMLogUSB/src/ringbuf.c:200-224 | with one consumer an untimed waiting get of positive size returns a byte, and what it returns is what was delivered, in put order |
| LogProtocol.TwoConsumersMayStarve | PSMLogUSB/src/ringbuf.c:200-224 | for every capacity, number of threads and two of them there is a run of those two in which a waiting get returns nothing |
| LogProtocol.PaysExactly | PSMLogUSB/src/ringbuf.c:200-224 | in all runs with a given set of consumers untimed waiting gets return something if and only if the set has at most one member |
| UsbSender.SenderConserves | PSMLogUSB/src/main.c:106-148 | at every label and for all driver answers, bytes sent followed by bytes pending are the bytes taken, and the loop never ends with bytes pending |
| UsbSender.EndToEnd | PSMLogUSB/src/main.c:85-148 | with the sender as the log's consumer, over all interleavings, sent, pending and travelling bytes are exactly the written ones that were not dropped, in order, the written ones are the data of the callers as the ledger accounts for them, and the driver is never approached with an empty buffer |
| UsbSender.ReturnsAreTaken | PSMLogUSB/src/main.c:106-148 | a get that has finished always finds the sender waiting for it |
| UsbSender.SoonWaits | PSMLogUSB/src/main.c:106-148 | while the loop is to go on, the driver is there and takes what it gets, at most four steps lead to a state in which all that was taken is sent and the sender waits for more |
| UsbSender.ExitsExactly | PSMLogUSB/src/main.c:106-108 | the loop is left exactly when it is told to stop at its top |
| UsbSender.RefusedStays | PSMLogUSB/src/main.c:111-142 | as long as the driver refuses, the bytes stay pending and the sender keeps asking for the status |
| UsbSender.NeverStuck | PSMLogUSB/src/main.c:106-148 | in every state of the log and its sender, the sender has left, or can go on, or another thread holds the mutex and can go on, or there are no bytes to wait for |
| ArmImmediates.ThumbBranchDecodes | vitadecompiler-mod/src/relocate.c:129-169 | decoding S:I1:I2:imm10:imm11 of the written BL gives the offset, bit 0 cleared, over (-2^24, 2^24), and opcode bits stay |
| ArmImmediates.ArmBranchDecodes | vitadecompiler-mod/src/relocate.c:170-185 | decoding imm24 of the written branch gives the offset, its low two bits cleared, over (-2^25, 2^25), and opcode bits stay |
| ArmImmediates.ArmMovesDecode | vitadecompiler-mod/src/relocate.c:192-203 | a MOVW and a MOVT together carry all 32 bits of the operand and keep opcode and register |
| ArmImmediates.ThumbMovesDecode | vitadecompiler-mod/src/relocate.c:204-234 | the same for the Thumb encodings |
| ArmImmediates.MovwDecoderAgrees | psp2-syslibtrace-nids-extract/src/main.c:21-27 | the NID extractor's decoder, fed big-endian, reads back the low half of what a Thumb MOVW relocation wrote |
| ArmImmediates.NewWordIdempotent | vitadecompiler-mod/src/relocate.c:104-234 | relocating a relocated word changes nothing, for every code |
| ArmCodes.CodesKnown | vitadecompiler-mod/src/relocate.c:104-240 | which codes have an effect, and that branches reach exactly (-2^24, 2^24) and (-2^25, 2^25) as signed numbers |
| ArmCodes.CodeMeans | vitadecompiler-mod/src/relocate.c:104-234 | code by code: 2 and 38 store S + A, with 3 and 41 word plus place is S + A, 42 stores the low 31 bits of S + A - P, 40 keeps condition and register of a MOV PC, and the others carry their operand for an independent decoder and keep the rest of the word |
| ArmCodes.OneWord | vitadecompiler-mod/src/relocate.c:104-234 | no other word would do |
| Relocate.Untouched | vitadecompiler-mod/src/relocate.c:67-248 | bytes outside the targeted words keep their value, whatever the table |
| Relocate.Touched | vitadecompiler-mod/src/relocate.c:67-248 | a targeted word ends as its own entry makes it from the original word |
| Relocate.TableRelocates | vitadecompiler-mod/src/relocate.c:67-248 | after the whole table every entry with a known code whose word may be written has relocated it as its code asks, and no other byte has changed |
| Relocate.EffectMeans | vitadecompiler-mod/src/relocate.c:98-240 | which entries write, and which of them write the previous value, in terms of offset, code number and reach |
| Relocate.ShortEntryUnpacks | vitadecompiler-mod/src/relocate.h:43-52 | the fields of a short entry are read back as they were packed |
| Relocate.LongEntryUnpacks | vitadecompiler-mod/src/relocate.h:45-52 | so are those of a long one, whatever its last twelve bits |
| RelocateSamples.TableWords | vitadecompiler-mod/src/relocate.c:51-251 | a given table of a short and two long entries writes its three known words |
| Relocate.OrderIndependent | vitadecompiler-mod/src/relocate.c:51-251 | the final memory depends only on the set of entries, not on order, repetition or the uninitialised value |
| Relocate.RelocationIdempotent | vitadecompiler-mod/src/relocate.c:51-251 | applying a table twice is applying it once |
| Relocate.OneOutcomeExactly | vitadecompiler-mod/src/relocate.c:51-251 | for disjoint entries all orders and starting values give one memory if and only if no branch out of reach writes |
| Relocate.SettlesExactly | vitadecompiler-mod/src/relocate.c:51-251 | for disjoint entries a second pass changes nothing, in any order, under the same condition and no other |
| Relocate.StaleWrites | vitadecompiler-mod/src/relocate.c:150-156 | a branch out of reach writes the previous relocation's value |
| Relocate.StaleOrderMatters | vitadecompiler-mod/src/relocate.c:174-178 | with such a branch two orders of a disjoint table give different memory |
| Relocate.SegmentWriteInPlace | vitadecompiler-mod/src/relocate.c:29-44 | a word is written little-endian unless the segment's size forbids it |
| Relocate.RelocateInPlace | vitadecompiler-mod/src/relocate.c:51-251 | the loop over short and long entries applies exactly the entries of the table, in order, and so relocates their words as their codes ask |
| ReplaceAll.PiecesUnique | psp2-kernel-bootimage-extract/src/main.c:53-75 | there is exactly one leftmost, non-overlapping split of a string, and replacing joins that split |
| ReplaceAll.ResultSize | psp2-kernel-bootimage-extract/src/main.c:53-58 | the size computed before copying is the size of the result |
| ReplaceAll.StrReplace | psp2-kernel-bootimage-extract/src/main.c:34-77 | the two-pass version returns that replacement, terminated, in exactly the memory it allocated |
| ReplaceAll.Text.ReplaceAllInPlace | vitadecompiler-mod/src/utils.cpp:58-65 | the in-place version terminates with that same replacement, also when the replacement contains the search string |
| ShortCode.CodeDeterminesIndex | PSVita-error-code-resolver/src/main.c:100-113 | a short code determines the table index, read from the right, whatever the facility's name |
| ShortCode.CodeParts | PSVita-error-code-resolver/src/main.c:100-113 | a short code reads back as its facility, the number in decimal without leading zeros and the last digit of its digit sum |
| ShortCode.FacilityBits | PSVita-error-code-resolver/src/main.c:78-79 | the facility number is bits 16 to 27 of the code |
| ShortCode.GroupNameFirst | PSVita-error-code-resolver/src/main.c:80-97 | the facility is the name of the first group with that number, or the header if there is none |
| ShortCode.KnownTexts | PSVita-error-code-resolver/src/main.c:42-115 | one text of every kind, for a given table |
| ShortCode.SearchInvertsExactly | PSVita-error-code-resolver/src/main.c:193-202 | brute-forcing the text printed for any entry within the limit gives its error code back, whatever is printed past the limit, if and only if no earlier entry reads the same because one of the two is cut |
| ShortCode.ClashHappens | PSVita-error-code-resolver/src/main.c:193-202 | there is a table in which the search for the code of an entry, itself not cut, answers with another error |
| ShortCode.SearchInverts | PSVita-error-code-resolver/src/main.c:193-202 | so it does for every entry within the limit of a table whose codes fit |
| ShortCode.PastLimitSearch | PSVita-error-code-resolver/src/main.c:67-71 | the text of an entry past the limit is found at an entry if and only if that is the first one past the limit whose own call prints the same word |
| ShortCode.ErrorCodeToString | PSVita-error-code-resolver/src/main.c:42-115 | the index, facility and digit-sum loops compute the resolver's text |
| ShortCode.BruteForce | PSVita-error-code-resolver/src/main.c:193-202 | the loop finds the first entry with the text, for arbitrary words printed past the limit |
| SelfLayout.GapsPreserved | elf_injector/src/main.c:106-133 | every gap between neighbours is exactly kept and the last end moves by the sum of the growths |
| SelfLayout.OrderPreserved | elf_injector/src/main.c:106-133 | segments in order and disjoint stay so |
| SelfLayout.LayoutExactly | elf_injector/src/main.c:106-133 | the layout is the one rearrangement in which every length is the larger of the old one and the compressed size, the first segment stays and all gaps are kept |
| SelfLayout.Relayout | elf_injector/src/main.c:106-133 | the in-place loop, in 64-bit arithmetic, produces that rearrangement for every outcome of compression |

## Left out

- ArzlDecoder.DecompressInto: bytes past the end of the stream read as zero, where the original reads whatever memory follows; the round trip never gets there.
- ArzlDecoder.Decoder: the buffer is taken to be eight-byte aligned, so that the position modulo eight stands for the address.
- Unarzl.Unpack: runs in which the loop never ends or that use memory outside the table; the buffer has three bytes after its capacity, which the post-pass may read and write, and is a new one on every attempt.
- ArzlPostPass.Deobfuscate: a word that straddles the end makes the last bytes depend on the three slack bytes; the theorems are about the buffer with its slack.
- Sha256Stream.Context.Final: for messages of 2^64 bits and more the length field holds the length modulo 2^64, for which the standard defines no digest.
- RingBuffer.Ring: creation and deletion of kernel objects; pointers are unbounded numbers.
- LogProtocol: failing kernel calls other than the timeout of a wait.
- UsbSender.Next: a result of the driver that is not an error counts as the whole buffer sent, as in the code. Not modelled: the SERIAL_READY and SERIAL_STOP flag and the hooks that use it; driver answers are arbitrary inputs; vsnprintf and the clamping of its result before a put.
- Relocate.RelocateInPlace: requires the words that entries read or write to be inside the buffers, as the original does silently, so the pointer to an old word does not wrap; the second relocation code of long entries is ignored there too.
- ShortCode.BruteForce: reading the table file and the input.
- SelfLayout.Relayout: compression itself is an arbitrary input, and no offset may overflow 64 bits.
- The decompiler's string templates, NID table walking, module-info parsing, kernel dump tools, THGN generation, SELF unpacking through zlib, debug screens and all file and command-line handling.
