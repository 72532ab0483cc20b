# mpolib, modelled and proved in Dafny

Proofs about those parts of mpolib, and of the mocking library that it carries along, whose behaviour does not
depend on the operating system. `dafny verify dfyconfig.toml` checks everything.

| files | what they model |
|---|---|
| `Graphs`, `MatchMatrix`, `MaxBipartiteMatch`, `FindPairing` | The augmenting-path search behind unordered matchers. A ghost certificate, a set of right nodes that flow cannot leave, is carried through the loop over the left nodes and makes the result maximum. |
| `Expectations` | Prerequisites of expectations: the worklist walks, the global invariant that justifies where they stop, and whole runs of calls. |
| `PipeChannel`, `PipeEx` | Writer and reader of a counted pipe as atomic steps, with the windows in which no mutex is held; then both directions and four threads. |
| `Bytes`, `Md5` | Little-endian integers, and the MD5 context: buffering, counting and padding around a block function that is left open, so that every theorem holds for each block function. |
| `MemStream`, `ContainerFormat`, `Container`, `ContainerSession` | The seekable memory stream and the plain file it behaves like; the layout of a blob container; the writer with its placeholders and the reader; and the whole round trip. |
| `Process` | The parent and the two output listeners of a child process, all flags and the mutex, in every interleaving. |
| `Utf8`, `NumStr`, `Uri`, `Paths` | Text codecs: UTF-8, numbers in fixed buffers, percent-escapes and URIs, and the standard form of paths. |
| `Streams`, `HttpText`, `HttpClient`, `HttpServer`, `HttpExchange` | Nonblocking streams, the client that prints requests, the server that frames and parses them, and both together. |
| `Collections`, `Powers`, `Wrappers` | Facts about sequences, sets and powers; optional values. |

Code that works on objects is a class with the same fields and methods, and every method is proved against
functions and predicates on values. What runs in threads is a state machine with one action for each step that
another thread could observe; a lemma shows that each step keeps an invariant, and the theorems are about every
reachable state.

Where the code does not do what it or its comments promise, the code is kept and the exact condition is proved:

- The buffer for unsigned numbers has room for 19 digits, and a comment says that this is enough for 64 bits.
  It is for all numbers below base^19 and no others (`NumStr.UToStr`, `NumStr.WhichFit`).
- FromUTF8 accepts strings that are not UTF-8, and may run beyond the end of its source; both are decided octet
  by octet (`Utf8.AcceptsIllFormedIff`, `Utf8.OverrunIff`). Encoding the result again tells which were well-formed
  (`Utf8.ComesBackIffWellFormed`).
- MD5Update is right exactly while buffered bytes and input are fewer than 2^32 (`Md5.GuardSafeIff`).
- A name on a path that ends in a dot before a separator loses both, which is exactly where the loop differs from
  what it is meant to do (`Paths.AsMeantIff`); names are lost by it in all cases but one (`Paths.NamesKeptIff`). An
  absolute path such as "/." or "/../" becomes empty (`Paths.AbsoluteIff`).
- The client sends no length with an empty POST, and the server refuses it (`HttpExchange.ServePost`).
- A request that is already in the server's buffer is not looked at before another read brings data: it is found
  exactly if any byte is still to be read (`HttpServer.MpoHttpd.ReadRequest`).
- A container that is written after a failed ReadHeader counts its blobs on from the number that this has read, and
  is one exactly if that was 0 (`ContainerSession.WriteAfterRead`, `ContainerSession.StaleIff`).
- An expectation that is added to a sequence behind a younger one breaks the order that keeps prerequisites free of
  cycles (`Expectations.Sequence.AddExpectation`). Retiring does not need it, and the walk that looks at satisfied
  ones needs no more than that none of these are in a cycle (`Expectations.ExpectationBase.AllPrerequisitesAreSatisfied`).
- A URI with a `#` before its first `?` is refused (`Uri.RefusedIff`).

## Model

| member | source | states |
|---|---|---|
| `MaxBipartiteMatch.MaxBipartiteMatchState.Compute` | thirdparty/googletest-release-1.8.1/googlemock/src/gmock-matchers.cc:240-271 | The list is in lhs order and is a maximum matching: a matching of the graph, and no matching of the graph is larger, although each left node is searched from only once. |
| `MaxBipartiteMatch.MaxBipartiteMatchState.TryAugment` | thirdparty/googletest-release-1.8.1/googlemock/src/gmock-matchers.cc:292-316 | Terminates on the unseen right nodes. On failure both vectors are as before and everything in reach is marked; on success the vectors are changed along one path only (`Augmented`), away from marked and from trapped nodes. |
| `MaxBipartiteMatch.AugmentedMatchesOneMore` | thirdparty/googletest-release-1.8.1/googlemock/src/gmock-matchers.cc:287-291 | A successful search leaves the vectors mutually referent, adds just its own left node to the matched ones and unmatches none. |
| `MaxBipartiteMatch.FailedSearchMeansNoPath` | thirdparty/googletest-release-1.8.1/googlemock/src/gmock-matchers.cc:292-316 | A search that began with nothing seen and failed has shown that no augmenting path of any length starts at its node. |
| `MaxBipartiteMatch.CertifiedIsMaximum` | thirdparty/googletest-release-1.8.1/googlemock/src/gmock-matchers.cc:240-271 | The certificate: a set of right nodes that flow cannot leave, catching every unmatched left node, makes the flow a maximum matching. |
| `MaxBipartiteMatch.CertifyMatched` | thirdparty/googletest-release-1.8.1/googlemock/src/gmock-matchers.cc:248-260 | A later successful search never touches the certificate of the earlier failed ones. |
| `MaxBipartiteMatch.CertifyUnmatched` | thirdparty/googletest-release-1.8.1/googlemock/src/gmock-matchers.cc:248-260 | A failed search extends the certificate by the nodes that it has marked. |
| `MaxBipartiteMatch.TakeOver` | thirdparty/googletest-release-1.8.1/googlemock/src/gmock-matchers.cc:308-312 | Pushing flow through an occupied right node, after its owner has moved on, keeps the vectors consistent. |
| `MaxBipartiteMatch.FlowIsMatching` | thirdparty/googletest-release-1.8.1/googlemock/src/gmock-matchers.cc:329-332 | Mutually referent vectors inside the graph stand for a matching. |
| `FindPairing.FindPairing` | thirdparty/googletest-release-1.8.1/googlemock/src/gmock-matchers.cc:530-569 | True exactly if there is an assignment that covers every matcher and every element that the flags demand. |
| `FindPairing.MaximumDecidesPairing` | thirdparty/googletest-release-1.8.1/googlemock/src/gmock-matchers.cc:530-547 | Such an assignment exists exactly if a maximum matching is as large as the sides to be covered. |
| `FindPairing.VerifyMatchMatrix` | thirdparty/googletest-release-1.8.1/googlemock/src/gmock-matchers.cc:480-528 | True exactly if no element and no matcher that the flags name is without any candidate. |
| `FindPairing.PairingNeedsCandidates` | thirdparty/googletest-release-1.8.1/googlemock/src/gmock-matchers.cc:480-528 | Rejecting those first never changes the verdict. |
| `FindPairing.MatchAndExplain` | thirdparty/googletest-release-1.8.1/googlemock/include/gmock/gmock-matchers.h:3760-3790 | The whole of the decision, with its early exits: true exactly if the demanded assignment exists. |
| `Graphs.CoverageBySize` | thirdparty/googletest-release-1.8.1/googlemock/src/gmock-matchers.cc:532-547 | A matching covers a side exactly if it has as many edges as that side has nodes. |
| `MatchMatrices.MatchMatrix.constructor` | thirdparty/googletest-release-1.8.1/googlemock/include/gmock/gmock-matchers.h:3629-3633 | A new matrix has its size and no edges. |
| `MatchMatrices.MatchMatrix.SetEdge` | thirdparty/googletest-release-1.8.1/googlemock/include/gmock/gmock-matchers.h:3640-3642 | Adds or removes just that edge from the graph that the flat vector stores. |
| `MatchMatrices.MatchMatrix.NextGraph` | thirdparty/googletest-release-1.8.1/googlemock/src/gmock-matchers.cc:357-369 | The stored bits become their binary successor; false exactly when they were all set. |
| `MatchMatrices.IncrementCounts` | thirdparty/googletest-release-1.8.1/googlemock/src/gmock-matchers.cc:357-369 | The successor stands for the next number modulo 2^bits, and wraps exactly from all ones. |
| `MatchMatrices.EveryGraphOnce` | thirdparty/googletest-release-1.8.1/googlemock/include/gmock/gmock-matchers.h:3620-3626 | Counting up from the empty graph meets every graph, each at exactly one step before the count wraps. |
| `Expectations.ExpectationBase.RetireAllPreRequisites` | thirdparty/googletest-release-1.8.1/googlemock/src/gmock-spec-builders.cc:103-126 | On any graph, with cycles or without: if the retired set is closed under prerequisites, it becomes itself plus all transitive prerequisites and nothing else, and is closed again, despite the early return and the pruning at retired nodes. |
| `Expectations.ExpectationBase.AllPrerequisitesAreSatisfied` | thirdparty/googletest-release-1.8.1/googlemock/src/gmock-spec-builders.cc:130-147 | Terminates without a visited set wherever no cycle of satisfied prerequisites is reached, and is true exactly if every transitive prerequisite is satisfied. |
| `Expectations.Descend` | thirdparty/googletest-release-1.8.1/googlemock/src/gmock-spec-builders.cc:130-147 | Why it does: without such a cycle, each step leaves a prerequisite behind. |
| `Expectations.OrderedHasNoCycle` | thirdparty/googletest-release-1.8.1/googlemock/src/gmock-spec-builders.cc:847-855 | Where prerequisites are older than what needs them, there is no such cycle. |
| `Expectations.CycleNeverEnds` | thirdparty/googletest-release-1.8.1/googlemock/src/gmock-spec-builders.cc:130-147 | Where there is such a cycle, and all prerequisites are satisfied, the walk never comes to the end of its worklist, in whatever order it pushes them. |
| `Expectations.ExpectationBase.FindUnsatisfiedPrerequisites` | thirdparty/googletest-release-1.8.1/googlemock/src/gmock-spec-builders.cc:150-177 | Collects exactly the unsatisfied prerequisites that no other one hides, and none exactly if all are satisfied. |
| `Expectations.ExpectationBase.HandleCall` | thirdparty/googletest-release-1.8.1/googlemock/include/gmock/gmock-spec-builders.h:1199-1229 | A call that should be handled keeps the global invariant `Consistent`; what it retires is stated exactly, also for an excessive call. |
| `Expectations.Offer` | thirdparty/googletest-release-1.8.1/googlemock/include/gmock/gmock-spec-builders.h:1103-1113 | One call: taken exactly if the expectation is not retired and all its transitive prerequisites are satisfied; the new counts and retired set, whether it is taken or not. |
| `Expectations.Replay` | thirdparty/googletest-release-1.8.1/googlemock/include/gmock/gmock-spec-builders.h:1103-1113 | Over any run of calls offered, at every position: the call is taken exactly if the expectation is not retired and all its prerequisites have been called often enough and not too often, as the calls before have left them, and one that is not taken changes nothing; so none that was handled as intended is followed by a handled call to one of its prerequisites. |
| `Expectations.CalledIsUnblocked` | thirdparty/googletest-release-1.8.1/googlemock/src/gmock-spec-builders.cc:163-169 | Why the walk need not look beyond a satisfied expectation that has been called: nothing behind it can be unsatisfied. |
| `Expectations.Sequence.AddExpectation` | thirdparty/googletest-release-1.8.1/googlemock/src/gmock-spec-builders.cc:847-855 | Links the new member to the last one, unless it is the last one; prerequisites stay older than what needs them exactly if it is not older than the last one. |
| `Expectations.Sequence.ChainsAll` | thirdparty/googletest-release-1.8.1/googlemock/src/gmock-spec-builders.cc:847-855 | Every member of a sequence has all earlier ones as transitive prerequisites. |
| `Expectations.Spend` | thirdparty/googletest-release-1.8.1/googlemock/src/gmock-spec-builders.cc:130-147 | The termination measure of the walk without a visited set: pushing one prerequisite costs less than what it pays for. |
| `PipeChannel.WriterStepKeepsInv` | src/mpo_ipc.cpp:423-474 | Every step of BlockingWrite, with the mutex released in between, keeps the invariant. |
| `PipeChannel.ReaderStepKeepsInv` | src/mpo_ipc.cpp:368-523 | Every step of GetReadBufferSize, BlockingRead and NonBlockingRead keeps the invariant. |
| `PipeChannel.Conservation` | src/mpo_ipc.cpp:368-523 | In every reachable state the counter plus bytes written but not added equals bytes in the pipe plus bytes read but not subtracted, and the bytes themselves arrive in order. |
| `PipeChannel.AssertionHolds` | src/mpo_ipc.cpp:460-462 | The assertion that the buffer size is not negative never fails, in any interleaving. |
| `PipeChannel.SeenBytesWait` | src/mpo_ipc.cpp:368-380 | A reader that was told of n bytes, and has not read since, has at least n bytes waiting. |
| `PipeChannel.QueryFindsBytes` | src/mpo_ipc.cpp:368-380 | GetReadBufferSize answers with all bytes in the pipe but for those that the writer has yet to add: never with less, and once the writer is done, with just what there is. |
| `PipeChannel.PollDecides` | src/mpo_ipc.cpp:476-523 | NonBlockingRead reads if there is anything in the pipe, and returns if not. |
| `PipeChannel.CallsEnd` | src/mpo_ipc.cpp:368-523 | Each step brings a call closer to its end, and it ends exactly where it has booked what it wrote or read, has answered, or the pipe has refused. |
| `PipeChannel.CallsAreServed` | src/mpo_ipc.cpp:368-523 | On every run, the reader is at what its latest call asks for, and takes no more than that; the writer goes on to add exactly if the write has not failed. |
| `PipeChannel.BytesAreTheWriters` | src/mpo_ipc.cpp:423-474 | What has been received and what is in the pipe are, in order, the bytes of the calls of BlockingWrite as far as the kernel has taken them. |
| `PipeChannel.HolderNeverWaits` | src/mpo_ipc.cpp:476-523 | Whoever holds the mutex can step without the other thread; the read inside NonBlockingRead does not block. |
| `PipeChannel.CounterCanBeNegative` | src/mpo_ipc.cpp:407-411 | The counter can be negative: an interleaving that makes it so. |
| `PipeEx.StepProjects` | src/mpo_ipc.cpp:288-366 | Through the references that Create hands out, a step at either end moves one direction only. |
| `PipeEx.BothDirectionsConserve` | src/mpo_ipc.cpp:288-366 | In every run of all four threads each direction conserves its bytes and its count. |
| `PipeEx.BothDirectionsDeliver` | src/mpo_ipc.cpp:288-366 | What an end receives, and what is on its way there, are the bytes that the calls at the other end have written; and its reader is at what its latest call asks for. |
| `PipeEx.QueryAtEnd` | src/mpo_ipc.cpp:288-380 | A reader at either end that asks for the size learns of all bytes on their way to it but those that the writer at the other end has yet to add. |
| `Md5.Context.Init` | src/md5c.cpp:99-109 | The context stands for the empty message. |
| `Md5.InitBytes` | src/md5c.cpp:99-109 | The initial state is the sixteen bytes of section 3.3 of RFC 1321, low byte first. |
| `Md5.Context.Update` | src/md5c.cpp:115-152 | The context stands for the old message followed by the input: blocks hashed, rest buffered, bits counted; for every block function, if buffered bytes and input are fewer than 2^32. |
| `Md5.Context.CountBits` | src/md5c.cpp:124-128 | The two count words go on to stand for the bit count, carry and wrap included. |
| `Md5.CountAdd` | src/md5c.cpp:124-128 | The code's carry between the two words is addition of 8 * len modulo 2^64. |
| `Md5.CountsMeans` | src/md5c.cpp:124-128 | The words count bits exactly if they are the low and high half of the bit length modulo 2^64. |
| `Md5.Context.Final` | src/md5c.cpp:157-182 | The digest is that of the whole message with the padding of sections 3.1 and 3.2 of RFC 1321, and the context is zeroed. |
| `Md5.PaddedByParts` | src/md5c.cpp:165-174 | Padding and count as two further updates are the padding of RFC 1321. |
| `Md5.PaddedIs` | src/md5c.cpp:157-182 | A padded message is the message, a byte 0x80, fewer than 64 zeros, and eight bytes of bit count, in whole blocks. |
| `Md5.PaddingInjective` | src/md5c.cpp:157-182 | Two messages whose length fits the count never pad to the same blocks. |
| `Md5.DigestOfChunks` | src/md5c.cpp:115-182 | However a message is cut into updates, the digest is that of the whole. |
| `Md5.GuardSafeIff` | src/md5c.cpp:135-145 | The loop of MD5Update keeps each block inside the input exactly if buffered bytes and input together are fewer than 2^32; beyond, the 32-bit index wraps. |
| `Md5.Encode` | src/md5c.cpp:279-292 | The words, low byte first. |
| `Md5.Decode` | src/md5c.cpp:297-308 | The words of which these bytes are the encoding. |
| `Md5.FoldSplit` | src/md5c.cpp:135-145 | Hashing whole blocks one after the other is hashing their concatenation. |
| `MemStream.MpoMemStream.Read` | src/mpo_memory_stream.cpp:56-83 | Returns what a plain file has at the position, as far as it goes, and leaves the rest of the buffer alone. |
| `MemStream.MpoMemStream.Write` | src/mpo_memory_stream.cpp:85-110 | By erasing, padding and inserting, overwrites like a plain file, with zeros in a gap. |
| `MemStream.MpoMemStream.Seek` | src/mpo_memory_stream.cpp:112-157 | Moves to a position that is not negative, or fails and stays. |
| `MemStream.OverlayRemembers` | src/mpo_memory_stream.cpp:85-110 | What was written is read back, what was elsewhere stays, and a gap is zero. |
| `Container.MpoContainer.WriteHeader` | src/mpo_container.cpp:276-296 | Fails exactly after a header was written or read; otherwise puts placeholders in front, whatever the stream held, and starts a session, whose number of blobs goes on from what a failed ReadHeader has left. |
| `Container.MpoContainer.StartWriteBlob` | src/mpo_container.cpp:298-330 | Opens a blob, exactly if a header was written and none is open; the records so far stay. |
| `Container.MpoContainer.WriteToBlob` | src/mpo_container.cpp:332-344 | Appends to the open blob, on the stream and in its running digest; nothing if none is open. |
| `Container.MpoContainer.EndWriteBlob` | src/mpo_container.cpp:346-375 | The open blob becomes a record, its size and digest patched in where the placeholders were, and its offset is in the table. |
| `Container.MpoContainer.Close` | src/mpo_container.cpp:377-447 | Ends an open blob and completes the draft: table, number of blobs, counted on from what was left, and digest in place, bytes beyond it as before. |
| `Container.HashFrom` | src/mpo_container.cpp:418-431 | Hashes all of the stream from a position on, the same whatever the buffer size; or, where a callback says no, just what has been read by then. |
| `Container.MpoContainer.ReadHeader` | src/mpo_container.cpp:70-166 | Accepts exactly the streams with the version and 36 bytes, also after attempts that failed, and takes over the fields; from a container, also all offsets and the largest blob size. An attempt that fails leaves the number of blobs that it has read, exactly if there are 28 bytes with the version. |
| `ContainerFormat.LargestIs` | src/mpo_container.cpp:124-158 | The size that ReadHeader finds for a container is that of one of its blobs, and none is larger. |
| `Container.MpoContainer.JumpToBlob` | src/mpo_container.cpp:44-68 | Succeeds exactly while no blob is open and the index exists, and is then where the table says; in a container, at that blob. |
| `Container.MpoContainer.StartReadBlob` | src/mpo_container.cpp:168-210 | On any stream, succeeds exactly if none is open, the index is in range, more than 28 bytes are left and the reserved ones are 0, and takes over size, digest and id; at a blob of a container it always does. |
| `Container.MpoContainer.ReadFromBlob` | src/mpo_container.cpp:217-238 | On any stream, the next bytes as far as they go, never beyond the announced size; in a container, just the next bytes of the blob. |
| `Container.MpoContainer.EndReadBlob` | src/mpo_container.cpp:241-274 | True exactly if the blob was read to its end and its digest is right, or is not to be looked at. |
| `Container.MpoContainer.VerifyContainer` | src/mpo_container.cpp:464-533 | True exactly if the digest in the header is that of everything behind it, for every update interval, or of what had been read when the callback first said no; the place is stated. |
| `ContainerFormat.BytesWhenEnded` | src/mpo_container.cpp:346-375 | Patching size and digest of an open blob gives the bytes of its record. |
| `ContainerFormat.SignatureIs` | src/mpo_container.cpp:6-7 | A container starts with "1CON". |
| `ContainerFormat.BytesWhenClosed` | src/mpo_container.cpp:387-412 | Table and patched counts give everything that the header's digest covers, whatever the number of blobs. |
| `ContainerFormat.FileIsContainer` | src/mpo_container.cpp:276-447 | In the bytes of a closed file whose number of blobs is right, header, table and all records are found where a reader looks. |
| `ContainerFormat.FileIsContainerIff` | src/mpo_container.cpp:276-447 | A closed file is a container of its blobs exactly if the number in its header is theirs. |
| `ContainerFormat.RecordAt` | src/mpo_container.cpp:298-375 | The record of each blob is found at its offset. |
| `ContainerSession.WriteContainer` | src/mpo_container.cpp:276-447 | Any list of ids and write chunks, on a stream with any contents, becomes a container of just these blobs. |
| `ContainerSession.ReadBlob` | src/mpo_container.cpp:44-68 | A visit to any blob, with any read sizes, yields its id and exactly its bytes, and EndReadBlob is true. |
| `ContainerSession.CheckBlob` | src/mpo_container.cpp:168-274 | On any stream whose header was accepted, sound or not, with any read size: a blob can be opened exactly if more than 28 bytes are left and the reserved ones are 0, as much of it is read as there is, and EndReadBlob is true exactly if all bytes that were announced are there and have the digest that was announced. |
| `ContainerSession.RoundTrip` | src/mpo_container.cpp:44-533 | Whatever is written and closed, a fresh reader verifies at any interval and gets back, in any order of visits and with any read sizes. |
| `ContainerSession.WriteAfterRead` | src/mpo_container.cpp:70-447 | An attempt to read, and if it fails, a session with the same object: on every stream, the blobs are counted on from what the attempt has left. |
| `ContainerSession.StaleIff` | src/mpo_container.cpp:103-118 | What has been written then is a container exactly if the attempt has left 0. |
| `ContainerSession.StaleFile` | src/mpo_container.cpp:387-441 | If not, its digest is right all the same, and all blobs are in their places, but the number is that of the blobs plus what was left. |
| `ContainerSession.StaleInstance` | src/mpo_container.cpp:103-118 | Such a stream: version, any digest, and 1 as the number of blobs. |
| `Bytes.LeRoundTrip` | src/mpo_misc.cpp:777-796 | What is written in so many bytes is read back modulo 256^bytes. |
| `Bytes.LeByte` | src/mpo_misc.cpp:777-796 | Byte i is digit i of the number in base 256, the lowest first. |
| `Bytes.FromLeInverse` | src/mpo_misc.cpp:816-833 | What is read from so many bytes fits into them, and is written back as they were. |
| `Process.StepKeepsInv` | src/mpo_process.cpp:409-1036 | Every step of parent and listeners keeps the invariant of handshake, mutex, bytes and sizes. |
| `Process.RunKeepsInv` | src/mpo_process.cpp:409-1036 | So does every interleaving of any length. |
| `Process.LaunchNeverMisses` | src/mpo_process.cpp:421-433 | While the parent spins on a running flag, the thread is about to set it or has, and nobody but the parent goes on from there. |
| `Process.AckIsGiven` | src/mpo_process.cpp:435-437 | A listener waits for the acknowledgement only while Launch has yet to give it. |
| `Process.AssertionsHold` | src/mpo_process.cpp:828-839 | The assertions in Shutdown never fail. |
| `Process.JoinedOnce` | src/mpo_process.cpp:571-578 | Each thread is waited for exactly once, before the next one is created and before destruction, and only if there is one. |
| `Process.OutputConserved` | src/mpo_process.cpp:560-587 | What was returned, what is about to be, the buffer and the listener's chunk are all bytes read from the child, in order. |
| `Process.OutputIsReceived` | src/mpo_process.cpp:560-587 | On every run, what was returned, is about to be, is buffered or in hand is, in order, what the reads of that output have received. |
| `Process.ReadGetsBuffer` | src/mpo_process.cpp:560-587 | Any read returns all of the output that it was called for, but for what the listener has in hand. |
| `Process.ListenerReads` | src/mpo_process.cpp:900-936 | A listener that is to run, and whose buffer is not too big, comes closer to read() with each of its steps. |
| `Process.ExitedHasEnded` | src/mpo_process.cpp:900-960 | Unless Shutdown has told it to, a listener exits only after the end of the output or a read error, and never before the error is recorded. |
| `Process.EndIsEnd` | src/mpo_process.cpp:918-936 | After the end of the output, or an error, it never reads again. |
| `Process.LaunchCreatesWanted` | src/mpo_process.cpp:403-437 | When Launch is done, the child has been launched, the listeners are to run, and there is one for each output that was to be captured, and no other. |
| `Process.FinalReadIsSafe` | src/mpo_process.cpp:560-573 | A final read waits only for a child that is known to have ended, and otherwise changes nothing. |
| `Process.FinalReadRefusedIff` | src/mpo_process.cpp:560-566 | It is refused exactly if the last launch has not been found to have ended since. |
| `Process.CallsEnd` | src/mpo_process.cpp:403-840 | Each step of the parent brings its call closer to its end, but for a look at a running flag that is not set yet, and it ends exactly with the last step of that call, a failed launch or a refused final read. |
| `Process.FinalReadGetsAll` | src/mpo_process.cpp:560-587 | After a final read, everything ever read from the child has been returned. |
| `Process.BufferBounded` | src/mpo_process.cpp:867-886 | The buffer never exceeds the larger of the limit and its size at launch by more than one read; over many launches, by one read each. |
| `Process.ShutdownDrainsListener` | src/mpo_process.cpp:820-840 | While Shutdown waits, each step of the listener brings it closer to its exit, and no other step takes it away from there. |
| `Process.ShutdownNeverStuck` | src/mpo_process.cpp:820-840 | And the listener can step, is inside read(), or waits for a mutex whose holder can step. |
| `Process.HolderNeverWaits` | src/mpo_process.cpp:867-886 | Whoever holds the mutex can step. |
| `Utf8.ToUTF8` | src/mpo_misc.cpp:199-248 | True exactly on sequences of scalar values; in any case the result is well-formed by section 4 of RFC 3629, and FromUTF8 finds in it just the scalar values among the characters. |
| `Utf8.EncodeLeavesOut` | src/mpo_misc.cpp:199-248 | Characters that are no scalar values are left out, and nothing else is. |
| `Utf8.FromUTF8` | src/mpo_misc.cpp:267-346 | Accepts exactly the strings of lead octets with as many octets as they call for, overlong forms left out (`IsLoose`), as the values of these octets; runs beyond the end exactly if, behind such a string, a character lacks just its last octet; gives up on all others, behind the characters so far. Well-formed strings come out as the characters that they encode. |
| `Utf8.AcceptedIff` | src/mpo_misc.cpp:267-346 | The accepted strings, octet by octet, and the characters that they become. |
| `Utf8.RejectedIs` | src/mpo_misc.cpp:267-346 | Where FromUTF8 gives up, it has decoded all characters of the longest prefix that it accepts. |
| `Utf8.AcceptsIllFormedIff` | src/mpo_misc.cpp:321-331 | An ill-formed string is accepted exactly if its only faults are octets that are no tails, surrogates, and numbers above 10FFFF. |
| `Utf8.WellFormedIff` | src/mpo_misc.cpp:321-343 | Well-formed, by section 4 of RFC 3629, is what is accepted and has none of these faults. |
| `Utf8.RoundTrip` | src/mpo_misc.cpp:199-346 | FromUTF8 undoes ToUTF8 on all scalar values. |
| `Utf8.SortsAlike` | src/mpo_misc.cpp:199-248 | Encoded strings sort octet by octet as the strings of scalar values do. |
| `Utf8.WellFormedIsAccepted` | src/mpo_misc.cpp:267-346 | Every well-formed string is accepted and is the encoding of what it is decoded to. |
| `Utf8.ComesBackIffWellFormed` | src/mpo_misc.cpp:267-346 | A string is accepted and encoded to itself again exactly if it is well-formed. |
| `Utf8.AcceptsMalformed` | src/mpo_misc.cpp:321-331 | An instance: C2 41 is not well-formed and yet accepted. |
| `Utf8.OverrunIff` | src/mpo_misc.cpp:321-343 | The loop runs beyond the end exactly if, behind a string that it accepts (`IsLoose`), the last character lacks just its last octet and is not overlong. |
| `Utf8.WellFormedCharIsEncoded` | src/mpo_misc.cpp:199-248 | The octets of a well-formed character are those that its value is encoded as. |
| `NumStr.UToStr` | src/mpo_numstr.cpp:251-281 | Stays in its 20 bytes exactly if the number is below base^19, and then has its digits, padded. |
| `NumStr.IToStr` | src/mpo_numstr.cpp:164-213 | The same for signed numbers, with 21 bytes; the least number has no negative. |
| `NumStr.WhichFit` | src/mpo_numstr.cpp:251-255 | Every 64-bit number fits in base 16; in base 10 just those below 10^19, although the comment in the code has them all fit. |
| `NumStr.DigitCount` | src/mpo_numstr.cpp:266-271 | n digits suffice for just the numbers below base^n. |
| `NumStr.OneDigit` | src/mpo_numstr.cpp:251-281 | Digits above nine are capital letters. |
| `NumStr.ToUint` | include/mpolib/mpo_numstr.h:80-131 | A text of digits is read as its number in the width of the type; any other as `Read` says. |
| `NumStr.ReadMeans` | include/mpolib/mpo_numstr.h:80-131 | Whatever the text: in base 16 it is read as the number of all its hexadecimal digits before the first NUL, in base 10 as that of its first run of digits, modulo 2^32 or 2^64. |
| `NumStr.UintRoundTrip` | include/mpolib/mpo_numstr.h:80-131 | ToUint recovers what UToStr printed in base 10 or 16, behind any text without digits and before any end of number. |
| `NumStr.ToInt32` | src/mpo_numstr.cpp:37-80 | A text of digits is read as its number if that is a 32-bit int; any other as `ReadInt` says. |
| `NumStr.ReadIntMeans` | src/mpo_numstr.cpp:37-80 | Whatever the text: it is read as its first run of digits before the first NUL, negative if there is a minus anywhere before that, and not at all if that leaves 32 bits. |
| `NumStr.IntRoundTrip` | src/mpo_numstr.cpp:37-80 | ToInt32 recovers every int that IToStr printed in base 10. |
| `Uri.Escape` | src/mpo_http.cpp:685-707 | Letters and digits as they are, everything else as % and two digits; Unescape recovers it, and nothing in it is /, ? or #. |
| `Uri.EscapeCharIs` | src/mpo_http.cpp:685-707 | An octet is a letter or digit, or % and its two digits, in small letters. |
| `Uri.EscapedIs` | src/mpo_http.cpp:685-707 | Escaping keeps just letters and digits, and takes two characters more for each other one. |
| `Uri.Unescape` | src/mpo_httpd.cpp:525-559 | Each escape becomes its character; one that is cut off ends the text. |
| `Uri.UnescapedPlain` | src/mpo_httpd.cpp:525-559 | Text without % stays as it is, whatever follows it. |
| `Uri.UnescapedEscape` | src/mpo_httpd.cpp:525-559 | An escape is the number of its two digits, in upper or lower case; one that is cut off ends the text. |
| `Uri.EscapeInverse` | src/mpo_httpd.cpp:525-559 | Unescape recovers every byte string that Escape has escaped, whatever follows it (section 2.4 of RFC 2396). |
| `Uri.MakeURI` | src/mpo_http.cpp:709-732 | Prints what ParseURI takes apart again. |
| `Uri.ParseURI` | src/mpo_httpd.cpp:561-612 | Refuses exactly if there is a ? and a # stands before all of them; otherwise `Parse`. |
| `Uri.ParseIs` | src/mpo_httpd.cpp:561-612 | For a path, and optionally a query and a fragment, in all four cases: just these parts, unescaped. |
| `Uri.RefusedIff` | src/mpo_httpd.cpp:577-611 | Refused exactly if there is a ? and a # stands before all of them. |
| `Uri.UriRoundTrip` | src/mpo_httpd.cpp:561-612 | ParseURI of MakeURI gives the segments as they were, and query and fragment around the query's first #. |
| `HttpClient.MpoHttp.StartGetOrHead` | src/mpo_http.cpp:161-210 | Sends request line, own headers, the caller's headers and a blank line, exactly if the length can be printed. |
| `HttpClient.MpoHttp.StartPost` | src/mpo_http.cpp:78-84 | The same with the announced length. |
| `HttpClient.MpoHttp.Send` | src/mpo_http.cpp:95-130 | Sends a part of the buffer, never more in all than was announced. |
| `HttpClient.MpoHttp.SendBuf` | src/mpo_http.cpp:132-157 | Goes on over partial writes until all that was announced is sent. |
| `HttpServer.MpoHttpd.ReadIntoBuf` | src/mpo_httpd.cpp:634-655 | What was buffered and what is still to come stay the same text, however a read cuts it. |
| `HttpServer.MpoHttpd.ReadRequest` | src/mpo_httpd.cpp:33-111 | Yields the bytes before the first blank line of all that arrives, however it is cut up; all later bytes stay, in order. On a stream with nothing but bytes and pauses, and unless the clock stops it, it succeeds exactly if there is a blank line and any byte is still to be read. |
| `HttpServer.MpoHttpd.ReadPartialRequest` | src/mpo_httpd.cpp:33-67 | One read, which succeeds only if data comes: on a stream with nothing but bytes and pauses, if a request and any more bytes are still to come, it takes the request or they are still to come; otherwise it does not succeed, nor will the next. |
| `HttpServer.GetNextLine` | src/mpo_httpd.cpp:664-700 | The first line, and what follows all its end-of-line characters. |
| `HttpText.LineIs` | src/mpo_httpd.cpp:664-700 | A line ends at the first carriage return or line feed, and all of these that follow belong to its end. |
| `HttpServer.GetNextWord` | src/mpo_httpd.cpp:702-731 | The next word, and what follows it. |
| `HttpText.NextWordIs` | src/mpo_httpd.cpp:702-731 | A word is what stands between blanks and tabs; there is none exactly if there is nothing else. |
| `HttpServer.MpoHttpd.ParseRequest` | src/mpo_httpd.cpp:113-204 | Understands a request as `ParseText` says, and goes on to the body, to the answer or to disconnect. |
| `HttpServer.MpoHttpd.Recv` | src/mpo_httpd.cpp:252-326 | The next bytes of the body, in order, never one beyond its length, and fewer than it was asked for only where the body or what is buffered ends; ends exactly when all have come. |
| `HttpText.RequestRoundTrip` | src/mpo_httpd.cpp:113-204 | The server's parser undoes the client's printer: method, URI, version and header map (section 3 of RFC 7230). |
| `HttpText.ParseTextIff` | src/mpo_httpd.cpp:113-204 | Any text is understood exactly if it has a first line, three words in it of which the second is a URI, and a colon in every other line as far as the first empty one; with these as its headers, later ones over earlier ones. |
| `HttpText.HeaderOfIs` | src/mpo_httpd.cpp:153-160 | A header is split at the first colon, and one space behind that is left out; a line without a colon is refused. |
| `HttpText.PostInstance` | src/mpo_http.cpp:161-210 | The text of a POST of five bytes, character by character. |
| `HttpText.HeadEndOfRequest` | src/mpo_http.cpp:195-204 | The first blank line in what the client sends is the one that it ends its headers with. |
| `HttpText.HeadEndIsFirst` | src/mpo_httpd.cpp:42-53 | No blank line comes before the place that is found, and one is found if there is any. |
| `HttpText.HeadersRoundTrip` | src/mpo_httpd.cpp:153-161 | Printed headers are parsed to the same map, later ones over earlier ones. |
| `HttpExchange.Serve` | src/mpo_httpd.cpp:33-204 | The request that the server reads is the client's, understood as it was meant, however it arrived, and what follows is still there; on a stream with nothing but bytes and pauses, a patient server reads it exactly if any byte is still to be read. |
| `HttpExchange.ReceiveBody` | src/mpo_httpd.cpp:252-326 | Calls of Recv of any size yield exactly the next Content-Length bytes. |
| `HttpExchange.GetRoundTrip` | src/mpo_http.cpp:62-68 | A GET from the client's call to the server's fields: over any fragmentation it is read, accepted and understood, with host and user agent under their names. |
| `HttpExchange.PostRoundTrip` | src/mpo_http.cpp:78-130 | A POST and its body, which may be empty, from the client's calls to the server's, over any fragmentation and read size: over a steady stream it always arrives, and it is accepted exactly if the body is not empty. |
| `HttpExchange.PostHasLengthIff` | src/mpo_http.cpp:187-193 | A POST of the client says its length exactly if that is not 0 or the caller supplied one. |
| `HttpExchange.ServePost` | src/mpo_httpd.cpp:167-185 | The server accepts a POST of the client, and waits for its body, exactly if its length is not 0 or the caller supplied one, and disconnects otherwise; for every length. |
| `HttpExchange.LengthArrives` | src/mpo_http.cpp:187-193 | The length that the server waits for is that of the client's body. |
| `HttpExchange.OwnHeadersArrive` | src/mpo_http.cpp:180-185 | The host arrives as "Host" and the user agent as "User-Agent", unless the caller has named these. |
| `HttpExchange.CallersHeaderArrives` | src/mpo_http.cpp:195-201 | A header of the caller arrives with its value if no later one has its name. |
| `Paths.StandardizePath` | src/mpo_misc.cpp:369-432 | The result has no backslash, no "//", no "./" and no "/." at its end, and is the path itself if that has none. |
| `Paths.StandardIsNormal` | src/mpo_misc.cpp:369-432 | The result has no backslash, no "//", no "./" and no "/." at its end. |
| `Paths.NormalIsStandard` | src/mpo_misc.cpp:369-432 | A path in that form is its own standard form. |
| `Paths.StandardTwice` | src/mpo_misc.cpp:369-432 | To standardize twice is to standardize once. |
| `Paths.AsMeantIff` | src/mpo_misc.cpp:377-396 | The loop removes just current directories and repeated separators exactly if no other name ends in a dot before a separator. |
| `Paths.NamesKeptIff` | src/mpo_misc.cpp:369-432 | The names on a path are kept, in order, exactly if no name ends in a dot before a separator, or just one does and only current directories follow it, up to a final one. |
| `Paths.CharactersLost` | src/mpo_misc.cpp:377-396 | How many characters the names lose: one for each such dot, less one that a final current directory gives back. |
| `Paths.NamesLost` | src/mpo_misc.cpp:377-396 | Two families: x./y becomes xy, and ../y becomes .y. |
| `Paths.AbsoluteIff` | src/mpo_misc.cpp:369-432 | An absolute path stays absolute, unless it consists of separators and dots of which just one has no separator directly behind it, and becomes empty then; a relative path never becomes absolute. |

## Left out

- Md5.Context.Update: one call takes fewer than 2^32 bytes together with what is buffered; beyond, the code goes wrong, as `Md5.GuardSafeIff` says.
- Md5.PaddingInjective: messages below 2^61 bytes; collisions of the block function are not looked at, which stays a parameter.
- Container.MpoContainer.WriteToBlob: at most 2^32 - 64 bytes in a call, so that the digest is right.
- Container.MpoContainer.ReadFromBlob: the same.
- Container.MpoContainer.StartWriteBlob: not after Close, from where the code would write on at byte 20.
- Container.MpoContainer.VerifyContainer: what the callback is told; it is modelled by its answers.
- Container.MpoContainer.Close: the destructor's call of it, and streams that write less than they are asked to.
- ContainerSession.RoundTrip: containers of 2^63 bytes and more, which signed offsets do not reach.
- PipeChannel.Conservation: one writer and one reader in each direction, pipes and calls below 2^30 bytes, so that the 32-bit counter does not wrap; the variant for other systems' pipes.
- Process.OutputConserved: fork, exec and the pipes themselves; read() is any of some bytes, end or error. Flags are sequentially consistent, and no thread fails to start.
- Process.ShutdownDrainsListener: a child that never closes its pipe can keep Shutdown waiting in read(); likewise a final read before the join.
- Utf8.FromUTF8: shifts and masks are written as products and remainders; what happens beyond the end of the source is not modelled.
- NumStr.ToInt32: what happens after an overflow is not modelled.
- NumStr.IToStr: floating point numbers, and units.
- HttpClient.MpoHttp.StartGetOrHead: a stream that fails under the headers, which the code does not notice either. Headers are a list in the order of sending, of which a sorted map is one case.
- HttpClient.MpoHttp.SendBuf: a buffer shorter than the announced length, with which the loop would not end.
- HttpServer.MpoHttpd.ReadRequest: how long the clock lets it go on; either it never stops it, or it may do so before any read.
- HttpExchange.Serve: one request on a fresh server, whose header map is never cleared between requests.
- HttpServer.MpoHttpd.Recv: a length of 0 leaves the server waiting for a body of which there is none.
- MaxBipartiteMatch.MaxBipartiteMatchState.TryAugment: the unused value is -1 instead of the largest size_t.
- FindPairing.MatchAndExplain: the texts that explain a verdict.
- Expectations.ExpectationBase.AllPrerequisitesAreSatisfied: graphs on which a cycle of satisfied prerequisites and an unsatisfied one are both in reach, where the order of the sets decides which it comes to first; without the unsatisfied one it never ends, as `Expectations.CycleNeverEnds` says.
- Expectations.ExpectationBase.FindUnsatisfiedPrerequisites: prerequisites that are not older than what needs them.
- Expectations.ExpectationBase.HandleCall: choosing among several expectations, argument matchers and actions.
- Responses of the server and their chunked form in the client, sockets, files, directories, archives, threads of the listener, and all code for other systems.
