# gorsync in Dafny

A model of the transfer core of gorsync, an rsync implementation in Go, with proofs about it.

- **Delta engine.** The generator cuts the local file into blocks and sends a weak and a strong sum of each
  (`Generator`, `SumHead`, `Checksum`). The sender builds a tag index (`TagIndex`) and slides a rolling checksum
  (`Rolling`) over the source through a windowed file map (`FileMap`), sending literals and block references (`Match`,
  `Tokens`, `Sender`). `Greedy` says what such a search must find without any of this machinery. The receiver replays the
  tokens into a staged file and replaces the target only when the digest agrees (`Receiver`, `Staging`). `Delta` and
  `Session` put the two ends together on the bytes that travel.
- **Protocol.** `Protocol` has generator, sender and receiver as interleaved steps over two FIFO connections;
  `ProtocolSafety` holds what each step keeps and `ProtocolRuns` what follows for whole runs: results, order, absence of
  deadlock, termination. `ProtocolFailures` says which lists can make a run fail. `ProtocolBytes` shows that the byte-level
  code takes these steps, `ProtocolWire` that whole runs are runs on bytes, and `WholeTransfer` starts from the lists.
- **File list.** `FileEntry`, `FileList`, `FileListExchange`, `Names` and `Sorting` cover encoding, decoding, and why
  both sides mean the same file by an index; `EntryFlags` has the entries a peer may write that repeats nothing. `Delete` is the delete pass, and `DeleteExact` says when it
  is complete and when it is safe.
- **Smaller machines.** `Wildmatch` and `Exclude` (filter rules), `Multiplex` (framing), `Pool` (worker pool),
  `RateLimit` (token bucket).

Conventions. MD4 is a parameter: an arbitrary function to 16 bytes, so every result holds for every hash. Where equality
of content is claimed, the assumption is spelled out as `NoCollision` (block sums) or `Trusted` (a whole run); a hash that
is injective on what a run hashes meets it (`ProtocolRuns.InjectiveIsEnough`). A Go run-time panic is the error `Panic`.
Integer widths are explicit: `U32` and `I32` wrap, and a value passed as `int32` is proved to fit. Objects
the source updates in place are classes; methods are proved against functions on values, and the lemmas are about those
functions. `hide` statements only keep definitions a proof does not need out of its way.

Findings. An empty source makes the search panic whenever the receiver has a non-empty file (`Match.Transfer.HashSearch`,
`Session.SyncFile`, `ProtocolFailures.SomeRunFailsExactly`). A header may announce strong sums of up to 32 bytes, but
reading the first one above 16 panics (`Sums.LongSumsPanicExactly`). It may also announce sums of blocks of length 0, which
the search never survives (`Match.Transfer.HashSearch`). The two sides disagree on when a device number travels unless
devices and specials are set alike (`FileEntry.RdevAgreesExactly`). A user name above 255 bytes is never read
back (`FileList.IdsReadBackExactly`). The comment at internal/sender/flist.go:56-58 leaves the block lengths out of the widest
request; `Match.ChunkSizeLimit` has the chunk size that can be borne. A deleted plain file hides its later siblings from
the delete pass, and a list without ancestors loses listed paths (`DeleteExact.CompleteExactly`,
`DeleteExact.SafeExactly`). A filter rule for a directory also excludes plain files (`Exclude.TrailingSlashIsIgnored`). A
negative length of a name or a link panics (`FileEntry.NegativeLengthsPanic`), and a data message of 2^24 to 2^27
bytes is cut (`Multiplex.LongDataIsCut`). A small request can starve one above the rate in the rate limiter
(`RateLimit.StarvesExactly`).

Verify with `dafny verify dfyconfig.toml`.

## Model

| member | source | states |
|---|---|---|
| `Session.SyncFile` | internal/receiver/receiver.go:105-202 | End to end, on the bytes of both connections, the server's one multiplexed: the file system ends with exactly the source under the name and is otherwise unchanged, for every basis, every block length the root gives, every order of equal tags and every cutting into messages, if no strong sum collides. The transfer succeeds exactly when the source is non-empty or there is nothing to compare with and the file system's create, close and rename succeed; an empty source otherwise makes the sender panic, and whatever fails, the target stays as it was and only a failed rename leaves the temporary file |
| `WholeTransfer.StartTransfer` | internal/receiver/do.go:83-126 | From the lists to the files: after the exchange of a list of regular files and the two separate sorts, the receiver's skip test by list entries is that of the run, and every run that can go no further leaves every listed file that did not vanish, under its own name, with the sender's content; for every list in which no empty file meets a non-empty one, and without collisions |
| `Session.Carried` | internal/rsyncwire/wire.go:33-113 | Whatever messages the server's writes are cut into and whatever is logged between them, what the client reads is the bytes written |
| `Session.ReadToEnd` | internal/rsyncwire/wire.go:84-113 | The buffered reader, read to its end, gives exactly the data a stream of messages delivers, and nothing of what is logged or follows a bad message |
| `Delta.DeltaRebuildsSource` | internal/sender/match.go:21-229 | Whatever accepted tiling was sent, the receiver holding the basis of the sums reads back exactly the source, and the trailing digest check succeeds |
| `Delta.DeltaNeverSilentlyWrong` | internal/receiver/receiver.go:174-181 | With no assumption on the hash: what is accepted has the source's digest and length, and the only other outcome is a corruption error |
| `Delta.WholeFileArrives` | internal/sender/sender.go:154-253 | A file sent without sums arrives whole, whatever the local file is |
| `Delta.TilesReplay` | internal/receiver/receiver.go:129-173 | Tokens that tile the source always replay: every reference is inside the basis and the length is right; without collisions the bytes are the source's |
| `Delta.StreamReplays` | internal/receiver/receiver.go:129-173 | The receiver's reading of the encoded token list is the replay of that list |
| `Delta.BlockDataIsBlock` | internal/receiver/receiver.go:157-166 | The receiver's multiplied offset and length select exactly the block whose sums were sent |
| `Match.Transfer.HashSearch` | internal/sender/match.go:21-229 | The search emits index, header, a token list, the end marker and the digest of the whole source. The tokens tile [0,size) in order; literals hold the source's own bytes and only at offsets where no block is accepted by a linear scan over all sums; every reference is accepted for its window. For all sums that parse it fails exactly for an empty source, by the out-of-range index, or for block length 0, then by that index too or, if some block is accepted for an empty window, by a seek before the start of the file |
| `Match.Transfer.FindMatch` | internal/sender/match.go:95-169 | The tag-indexed scan accepts a block iff a linear scan over all blocks accepts one (same length, weak sum and strong prefix), and the one it returns is accepted |
| `Match.Transfer.SearchLoop` | internal/sender/match.go:93-210 | The loop sends and hashes everything up to lastMatch, misses no match up to the end of the file, and panics exactly on an empty source |
| `Match.Transfer.TestBlock` | internal/sender/match.go:108-137 | One candidate is accepted iff length, weak sum and strong prefix agree; the strong sum becomes known exactly when length and weak sum agree, and a known one is kept |
| `Match.Transfer.ReadChunk` | internal/sender/match.go:73-87 | After a match and at the start the sums are those of the window at the offset, whose length is the block length or what remains of the file |
| `Match.Transfer.RollAt` | internal/sender/match.go:171-196 | One loop step turns the sums of the window at an offset into those of the next window, growing or shrinking; it panics exactly on an empty source, and its request is always served |
| `Match.Transfer.Advance` | internal/sender/match.go:171-206 | Rolling plus the early flush keeps everything before lastMatch sent and hashed, moves lastMatch by the flush rule, and keeps the distance to it below one block and two chunks |
| `Match.Transfer.TakeMatch` | internal/sender/match.go:149-161 | After a match the search goes on one byte before the block's end with correct sums, and the tokens still tile the source |
| `Match.Transfer.Matched` | internal/sender/match.go:232-281 | Sends the literals up to the offset and the token, hashes exactly the bytes from the old lastMatch to the new one, and moves lastMatch behind the match |
| `Session.FullRequest` | internal/receiver/generator.go:273-287 | A missing file is asked for by its index and a header of sixteen zero bytes |
| `Session.RequestParses` | internal/receiver/generator.go:342-378 | From the bytes of a request and whatever follows the sender parses its index, its header and exactly its sums, and the rest stays on the connection |
| `Match.Transfer.SimpleSendToken` | internal/sender/token.go:4-31 | Cuts a literal run into chunks of at most 32 KiB that concatenate to it, then sends the token unless it is a flush; every chunk is served by the map |
| `Tokens.LiteralsAreChunks` | internal/sender/token.go:7-22 | A literal run travels as chunks of 32768 bytes each, but for a shorter last one: the k-th is that slice of the run |
| `Match.Transfer.RequestFits` | internal/sender/match.go:180 | Every request of up to two blocks and two chunks less one byte is served from an unchanged file, for every block length from 1 to 2^29 |
| `Match.AskedAtMost` | internal/sender/match.go:171-180 | The flush rule bounds every request by two blocks and two chunks less one byte |
| `Match.WidestIsAsked` | internal/sender/match.go:171-206 | That width is reached when a last stretch without a match ends with a full block |
| `Match.ChunkSizeLimit` | internal/sender/flist.go:52-60 | Every request up to that width is read inside the file, for all block lengths, files and offsets, exactly up to a chunk size of 43351 bytes |
| `Greedy.Signature.NoMatchNearEnd` | internal/sender/match.go:70 | No block can be accepted at an offset the search does not reach |
| `Greedy.Signature.TilingExists` | internal/sender/match.go:93-210 | A greedy tiling exists for every source and every signature |
| `Rolling.Roll` | internal/sender/match.go:186-196 | The uint32 updates with their 16-bit truncation are exact for the slid window, both with and without a newest byte |
| `TagIndex.BuildIndex` | internal/sender/sender.go:62-84 | Each sum has its own target, targets are sorted by tag in some order among equals, and the table gives the first target of each tag and no other tag |
| `Checksum.Checksum1` | internal/rsyncchecksum/rsyncchecksum.go:29-51 | The loop unrolled by four computes the byte-by-byte sums mod 2^16 |
| `Checksum.Sum2IsWeighted` | internal/rsyncchecksum/rsyncchecksum.go:29-51 | The second sum weighs byte i of n by n - i |
| `Checksum.SumsDropFirst` | internal/sender/match.go:186-187 | Dropping the oldest byte takes it once from the first sum and k times from the second |
| `Checksum.SignExtend` | internal/rsyncchecksum/rsyncchecksum.go:24-27 | The shift pair is the uint32 form of the signed byte |
| `Checksum.Signed` | internal/rsyncchecksum/rsyncchecksum.go:24-27 | A byte is read as eight bits in two's complement: between -128 and 127, and equal to it mod 256 |
| `Checksum.WeakIsPacked` | internal/rsyncchecksum/rsyncchecksum.go:11-51 | What travels as the weak sum is the plain sum of the signed bytes in the low half and the weighted sum in the high half, and its tag is the sum of both, all mod 2^16 |
| `FileMap.MapStruct.Ptr` | internal/sender/fileio.go:42-111 | For any sequence of requests and any short reads: a request succeeds exactly when it is cached or its window lies in the file; then it returns exactly those bytes and the window, its offset and the file cursor stay in agreement. A negative offset fails at the seek, and the invalid readSize error is never returned |
| `FileMap.MapStruct.Load` | internal/sender/fileio.go:49-110 | Moving the window, reusing what overlaps, succeeds exactly when the window ends inside the file |
| `FileMap.MapStruct.InWindowServedExactly` | internal/sender/fileio.go:52-67 | A request whose length plus misalignment fits the default window is served exactly when it lies inside the file |
| `FileMap.MapStruct.constructor` | internal/sender/fileio.go:31-40 | A fresh map is consistent, with the read size rounded to whole blocks and to the alignment |
| `FileMap.WindowIsRounded` | internal/sender/fileio.go:31-40 | That window is the least multiple of 1024 from the read size on, rounded up to whole blocks |
| `SumHeads.SumSizesDescribe` | internal/rsynccommon/rsynccommon.go:14-37 | For a root up to 2^29 the header is acceptable and its blocks, of the root's length but at least 700, end exactly at the end of the basis, however the double rounds |
| `SumHeads.RootWithinLimit` | internal/rsynccommon/rsynccommon.go:14-37 | Every basis length to 2^58 has such a root |
| `SumHeads.RoundingIsLeftOpen` | internal/rsynccommon/rsynccommon.go:14-37 | The exact root and both its neighbours are allowed, so no result depends on how the double rounds |
| `SumHeads.SumSizesAcceptedExactly` | types.go:42-81 | The peer accepts the header exactly when the root is at most 2^29 |
| `SumHeads.BlocksAreAdjacent` | internal/sender/sender.go:134-141 | The blocks follow each other without gap or overlap, and the header's rule for lengths is the generator's remaining-counter rule |
| `SumHeads.StartIsProduct` | internal/receiver/receiver.go:158 | Accumulated and multiplied block offsets agree |
| `SumHeads.HeadRoundTrip` | types.go:42-90 | A written header reads back exactly when count, block length, checksum length and remainder are within 0, 2^29, 32 and the block length, and is refused otherwise |
| `SumHeads.ReadFrom` | types.go:42-81 | Reads a header with the checks in their order; what it returns is acceptable |
| `Generator.GenerateAndSendSums` | internal/receiver/generator.go:353-378 | Sends the header and, in order, the sums of exactly the blocks of the file |
| `Sums.ReceiveSums` | internal/sender/sender.go:119-152 | Reads header and sums, or fails with the error the first bad part gives |
| `Sums.LongSumsPanicExactly` | internal/sender/sender.go:125-145 | Reading sums panics exactly when the accepted header announces sums, a checksum length above 16, and the first weak sum arrives |
| `Sums.ParsedGeometry` | internal/sender/sender.go:134-141 | Whatever the peer sends, parsed sums have the header's offsets and lengths |
| `Sums.SumsRoundTrip` | internal/sender/sender.go:119-152 | The sender recovers the generator's sums: same offsets, lengths, weak and strong sums |
| `Sender.SendFile` | internal/sender/sender.go:154-253 | Sends the whole file as literals of whatever sizes the reads return, none above 128 KiB, then its digest |
| `Sender.Serve` | internal/sender/sender.go:49-107 | One request, for every header the reader accepts: the branch on sums, the message each branch puts on the wire, and the exact failures |
| `Receiver.ReceiveData` | internal/receiver/receiver.go:105-202 | For an arbitrary byte stream the target is replaced only by the replay of its tokens whose seeded digest was received; every earlier failure leaves the whole file system as it was, and only a failed rename leaves the temporary file behind |
| `Receiver.ReplayTokens` | internal/receiver/receiver.go:129-173 | The token loop stages and hashes exactly the replay of the stream, or stops at its first error |
| `Receiver.RecvToken` | internal/receiver/token.go:6-20 | Reads one token: end, literal with its data, or block reference |
| `Receiver.UnannouncedBlock` | internal/receiver/receiver.go:157-170 | A reference past the announced blocks is not refused: it stands for the bytes of the local file a block there would hold, or is a read past the end |
| `Staging.PendingFile.CloseAtomicallyReplace` | internal/receiver/pendingfile.go:39-47 | Target and temporary file after each outcome of close and rename |
| `Staging.PendingFile.Cleanup` | internal/receiver/pendingfile.go:32-37 | Removes the temporary file unless it was handed to rename |
| `ProtocolRuns.CompletedRun` | internal/receiver/do.go:83-126 | Over every interleaving: a run that can go no further is finished, both connections are empty, every request that did not vanish was received in order, and every file equals its source; for every list in which no empty source meets a non-empty file, and without collisions |
| `ProtocolFailures.SomeRunFailsExactly` | internal/sender/match.go:180-187 | Without collisions some run fails exactly when an empty source meets a non-empty file of the receiver, for files up to 2^58 bytes |
| `ProtocolRuns.UntouchedOrSettled` | internal/receiver/generator.go:160-350 | At any moment of any run, also while the receiver still reads what a failed sender left on the connection, each destination file is untouched or has the source's length and list digest or the source's transfer digest |
| `ProtocolRuns.InvOfRun` | internal/receiver/generator.go:20-52 | Every reachable state keeps phases, bases, results and order |
| `ProtocolRuns.InvKept` | internal/sender/sender.go:20-116 | Each step of each party keeps that invariant |
| `ProtocolSafety.BasesKept` | internal/receiver/receiver.go:52-71 | The basis of every file in flight is unchanged since its sums were taken |
| `ProtocolSafety.PhaseKept` | internal/sender/sender.go:30-40 | Requests precede the -1 marks, replies theirs, stats come last, and the marks sent are those seen or on the way |
| `ProtocolRuns.ReplySettles` | internal/receiver/receiver.go:105-202 | A reply computed from a file's own sums is refused or settles that file; without collisions it is the source |
| `ProtocolRuns.ResultsKept` | internal/receiver/generator.go:77-98 | Skipped and received files are settled, vanished ones untouched, and without collisions no step fails |
| `ProtocolRuns.OnlyChangedAreAsked` | internal/receiver/generator.go:77-88 | In every reachable state exactly those files passed so far have been asked for that are missing or differ from the source in length or list digest, and only received files are touched |
| `ProtocolRuns.UpToDateIsLeftAlone` | internal/receiver/generator.go:77-98 | A run over files equal to their sources asks for none of them and changes nothing |
| `ProtocolRuns.Progress` | internal/receiver/do.go:94-123 | No deadlock: if no empty source meets a non-empty file, in every reachable state that is neither finished nor failed one of the parties can move |
| `ProtocolRuns.NobodyHangs` | internal/receiver/do.go:94-126 | Whatever is listed and whatever fails, in every reachable state both sides have come to an end or some step is possible |
| `ProtocolRuns.NoReplyIsLost` | internal/receiver/receiver.go:18-50 | Without collisions a failing sender loses no reply it has sent: when the receiver gives up it has received, in order, all that was asked for but what vanished and what the sender never answered |
| `ProtocolRuns.InjectiveIsEnough` | internal/rsyncchecksum/rsyncchecksum.go:53-75 | There are no collisions whenever the hash is injective on the contents and the slices in front of the seed that a run hashes |
| `ProtocolRuns.RunsAreBounded` | internal/sender/sender.go:20-116 | Every run ends within three steps a file and eighteen more |
| `ProtocolRuns.NoStatsNoFinish` | internal/sender/do.go:13-32 | A receiver that expects stats from a sender that is no server never finishes |
| `ProtocolRuns.UnreadStatsRemain` | internal/receiver/do.go:110-123 | A finished run leaves the connection empty exactly when stats are expected from those who send them |
| `ProtocolBytes.FileStepIsReceiveData` | internal/receiver/receiver.go:105-202 | The receiver's protocol step is what receive_data makes of the message's bytes, with the next message left on the connection |
| `ProtocolWire.RunOnWire` | internal/receiver/receiver.go:18-50 | Every step of every run is a step on the bytes under way: requests, replies, -1 marks, stats and the goodbye are read off the front of a connection exactly as they were put at its end, and a received file is what receive_data makes of those bytes |
| `ProtocolBytes.AskStepIsRequest` | internal/sender/sender.go:26-55 | The bytes of the protocol's request are read back as exactly that request, with the requests that follow left on the connection |
| `ProtocolBytes.AskStep` | internal/receiver/generator.go:273-350 | What the generator writes for a file it does not skip is the bytes of a request the protocol's step allows |
| `ProtocolBytes.ServeStep` | internal/sender/sender.go:26-107 | On the bytes of a request the sender takes the protocol's step: it writes the bytes of the reply that step puts on the connection and leaves the next request, or panics exactly where the step crashes |
| `Wildmatch.DoWild` | internal/sender/exclude.go:104-171 | Terminates and equals the declarative matcher: a star is an existential split, one star never crossing a slash, two or more crossing freely, classes as coded |
| `Wildmatch.MatchStar` | internal/sender/exclude.go:117-133 | The star loop finds a split iff one exists |
| `Wildmatch.ScanClass` | internal/sender/exclude.go:134-161 | The class loop accepts a character iff some listed range holds it, or none does when negated; unterminated classes run to the end |
| `Wildmatch.StarsAlone` | internal/sender/exclude.go:117-124 | A star alone matches what holds no slash, two match everything |
| `Wildmatch.NegationIsComplement` | internal/sender/exclude.go:139-161 | '!' and '^' turn a class into its complement and leave what follows it alone |
| `Wildmatch.RangeClass` | internal/sender/exclude.go:145-157 | A class of one range holds the characters from its first to its last, and ends at the bracket after it |
| `Wildmatch.SingleClass` | internal/sender/exclude.go:144-157 | A class of one character holds that one, even if it is a closing bracket |
| `Wildmatch.MatchKeepsDepth` | internal/sender/exclude.go:104-171 | Without "**" and '[' a match has as many slashes as the pattern |
| `Exclude.MatchesRule` | internal/sender/exclude.go:89-98 | A rule without a slash looks at the last path element, a wild one matches, any other compares |
| `Exclude.FilterRuleList.MatchesName` | internal/sender/exclude.go:42-49 | A name is excluded iff the first rule that matches it is no include rule |
| `Exclude.LinesDecide` | internal/sender/exclude.go:16-49 | From the text of the filter lines to the verdict: a name is excluded iff the first line whose pattern, read as a wildcard, matches it does not start with "+ " |
| `Exclude.CheckFilter` | internal/sender/exclude.go:29-49 | Parsing the lines and asking for a name gives exactly that verdict |
| `Exclude.WildFlagIsShortcut` | internal/sender/exclude.go:16-27 | The wild flag add_rule sets is only a shortcut: without it the wildcard matcher would decide the same |
| `Exclude.TrailingSlashIsIgnored` | internal/sender/exclude.go:17-20 | The directory flag is never read: a trailing slash changes nothing a rule matches |
| `Exclude.LinesKeepDepth` | internal/sender/exclude.go:89-104 | A line with a slash, without "**" and '[', only reaches paths of its own depth |
| `Exclude.EarlierRulesDecide` | internal/sender/exclude.go:42-49 | Rules added later cannot change the fate of a name some rule already matches |
| `Exclude.BaseIsLastElement` | internal/sender/exclude.go:91-93 | The base of a path is its last element, in whatever directory and with however many slashes after it |
| `Exclude.BaseOfSlashes` | internal/sender/exclude.go:91-93 | The base of nothing is a dot, of slashes alone one slash |
| `Exclude.LineForms` | internal/sender/exclude.go:16-20 | By the form of a line: the prefix and one slash at the end are taken off, the rest is the pattern |
| `Exclude.PlainLineReaches` | internal/sender/exclude.go:42-98 | A line that is a plain name excludes exactly the paths whose last element is that name, in any directory; with "- " it does the same, with "+ " it excludes nothing |
| `FileListExchange.ExchangeFileList` | internal/sender/do.go:44-60 | After the exchange and the two separate sorts index i is the same file on both sides, with its length, time, mode, owner, link and digest, and the id lists and error flag arrive |
| `FileList.IndicesAgree` | internal/receiver/flist.go:17-21 | Two unstable sorts of distinct names agree index by index |
| `FileList.ListRoundTrip` | internal/sender/flist.go:403-428 | The receiver decodes all entries in order, the id lists and the error flag, and stops exactly at the end of the list |
| `FileEntry.EntryRoundTrip` | internal/sender/flist.go:140-305 | An encoded entry decodes to itself after any previous entry, where the two sides agree on the device number |
| `FileEntry.RdevAgreesExactly` | internal/receiver/flist.go:168-179 | The two sides agree on a file's device number unless it is a pipe or a socket and devices and specials are preserved differently; so for all files exactly when both are preserved alike |
| `FileEntry.RdevMismatchBreaks` | internal/receiver/flist.go:168-179 | Where they disagree the entry does not decode to itself followed by the rest |
| `FileEntry.LongNamesAreRefused` | internal/receiver/flist.go:93-98 | A name of 4096 bytes or more is refused |
| `FileEntry.NegativeLengthsPanic` | internal/receiver/flist.go:99-190 | A negative length of a name or a link is not refused: it panics |
| `EntryFlags.FlaggedEntryReads` | internal/receiver/flist.go:67-200 | Whatever flags a peer sets where an entry agrees with the last one, and however much of the name it shares, the receiver reads exactly that entry and stops where it ends: name, time, mode, owner, group and device number by their flag numbers |
| `EntryFlags.FirstEntryReads` | internal/receiver/flist.go:203-240 | The first entry may take fields too: they are zero, and the time is that of Go's zero time |
| `EntryFlags.FlaggedListReads` | internal/receiver/flist.go:203-240 | So for whole lists: every entry in order, each with what it shares with the one before, up to the zero byte |
| `EntryFlags.NameIsShared` | internal/receiver/flist.go:69-108 | A name holds at each position the last name's byte, a zero byte where the last name is too short, or what travelled |
| `EntryFlags.ItemIsFlaggedEntry` | internal/sender/flist.go:140-305 | The bytes this sender writes for an item are such an entry, with only the long-name and top-directory flags |
| `EntryFlags.EntryTellsItem` | internal/sender/flist.go:180-305 | The entry tells name, permissions, kind by its number in stat's mode word, length (4096 for a directory), time mod 2^32 and, where they are preserved, owner, group, link, digest and device number |
| `FileList.IdsRoundTrip` | internal/receiver/uidlist.go:16-40 | An id list of names up to 255 bytes reads back as the map of its pairs |
| `FileList.IdsReadBackExactly` | internal/receiver/uidlist.go:16-40 | A list of distinct non-zero ids is read back as the map of its pairs exactly when every name has at most 255 bytes |
| `FileList.IdNameReadsBack` | internal/sender/flist.go:410-414 | An id entry reads back with its name cut to the length mod 256, and as itself exactly up to 255 bytes of name |
| `FileList.LongNameReadsOn` | internal/receiver/uidlist.go:18-38 | The rest of a longer name is read as id entries in front of those that follow |
| `FileList.MapOfIds` | internal/receiver/uidlist.go:16-40 | That map holds exactly the listed ids, each with its own name and local id |
| `Names.SortedNamesAreUnique` | internal/receiver/flist.go:17-21 | Distinct names have one sorted order |
| `Names.LessIsBytewise` | internal/receiver/flist.go:17-21 | The order is that of the first byte that differs, and a proper prefix comes first |
| `FileListExchange.SendFileList` | internal/sender/flist.go:329-433 | Writes the entries, the end byte, the id lists that are preserved and the error flag |
| `FileListExchange.ReceiveFileEntry` | internal/receiver/flist.go:67-200 | Reads one entry for any flags, with every error path |
| `FileListExchange.RecvIdMapping` | internal/receiver/uidlist.go:16-40 | Reads id mappings up to the zero id |
| `FileListExchange.ReceiveFileList` | internal/receiver/flist.go:203-269 | Reads the list and returns a sorted permutation of its entries |
| `Delete.Destination.DeleteFiles` | internal/receiver/do.go:25-67 | Asks for exactly the removals of the walks, in their order, whatever part of each succeeds; nothing else disappears, and everything under them does when all succeed. For a list closed under ancestors no listed path is removed, and nothing is after an I/O error, in a dry run or without a destination. The pass fails exactly when a directory that still exists cannot be listed |
| `Delete.Destination.WalkNode` | internal/receiver/do.go:39-58 | One walk asks for the removals the rule gives, removes paths only under them, skips later siblings exactly after a removed non-directory, and ends at a directory that cannot be listed |
| `Delete.FindInFileList` | internal/receiver/flist.go:24-29 | Binary search over the sorted list is exact membership |
| `Delete.RemovedAreUnlisted` | internal/receiver/do.go:44-57 | Only unlisted paths are taken as roots of a removal |
| `DeleteExact.SafeExactly` | internal/receiver/do.go:44-57 | No pass over any tree takes away a listed path of the tree exactly when the list is closed under ancestors |
| `DeleteExact.CompleteExactly` | internal/receiver/do.go:44-57 | A pass that does not fail takes away every unlisted path exactly when no listed directory has an unlisted non-directory before an entry with something unlisted in it |
| `DeleteExact.LeavesListedExactly` | internal/receiver/do.go:25-67 | When every removal succeeds and the list is closed under ancestors, what is left of the tree is exactly what is listed, if and only if nothing is hidden |
| `DeleteExact.OpenListLosesListed` | internal/receiver/do.go:44-57 | The smallest list that is not closed under ancestors, and the listed path it loses |
| `DeleteExact.SiblingOfDeletedFileSurvives` | internal/receiver/do.go:57 | The smallest tree in which a removed file hides an unlisted sibling |
| `Pool.RunReturns` | internal/parallel/pool.go:64-115 | Run returns nil exactly when every task ran and returned nil, otherwise an error some task produced |
| `Pool.AtMostOnce` | internal/parallel/pool.go:89-106 | Each task runs at most once |
| `Pool.FirstErrorIsReturned` | internal/parallel/pool.go:93-115 | The error Run returns is the first one sent, whatever is sent later |
| `Pool.NothingStartsAfterCancel` | internal/parallel/pool.go:89-97 | Once a worker has called cancel no further task is started |
| `Pool.InvOfRun` | internal/parallel/pool.go:95-100 | Over every interleaving tasks and errors are accounted for, and the default branch of the error send is never taken |
| `Pool.RunsAreBounded` | internal/parallel/pool.go:85-107 | Every run ends within four steps a task and one a worker |
| `Pool.Progress` | internal/parallel/pool.go:85-107 | Until all workers are done one of them can move |
| `RateLimit.GrantedWithinRate` | internal/rsyncwire/ratelimit.go:32-74 | Over all interleaved waiters 0 <= tokens <= maxTokens, and the bytes granted stay within the rate times one second plus the elapsed time, even while the cap is raised and lowered |
| `RateLimit.RateLimiter.TryTake` | internal/rsyncwire/ratelimit.go:44-63 | One pass of the loop: replenish, grant or the time to sleep |
| `RateLimit.RateLimiter.Wait` | internal/rsyncwire/ratelimit.go:32-74 | When no other waiter comes between, a request is granted at once or on its first retry after a sleep at least as long as told, and the bucket is what those passes leave |
| `RateLimit.LoneWaiterIsGranted` | internal/rsyncwire/ratelimit.go:62-72 | A waiter that slept as told is granted on its next try if nobody came between |
| `RateLimit.GrantableIffWithinCap` | internal/rsyncwire/ratelimit.go:44-60 | Until a new request arrives a pending one can be granted, after some sequence of retries of all waiters, exactly when it is within the cap |
| `RateLimit.CapNeverRises` | internal/rsyncwire/ratelimit.go:54-60 | Over any sequence of retries the cap never rises |
| `RateLimit.FirstBurst` | internal/rsyncwire/ratelimit.go:18-30 | A new limiter grants at once exactly what does not exceed one second's rate |
| `RateLimit.RefusedArrivalIsGrantable` | internal/rsyncwire/ratelimit.go:40-60 | A request that was just refused can be granted later, whatever its size, unless others come between |
| `RateLimit.StarvesExactly` | internal/rsyncwire/ratelimit.go:40-60 | Some interleaving starves a request, that is, refuses it and then all its retries until a new request arrives, exactly when it is larger than one second's rate |
| `Multiplex.BufferedReader.ReadFull` | internal/rsyncwire/wire.go:84-113 | For any stream and any cutting into messages: succeeds exactly when enough data is still to come, returns exactly the next bytes, and never panics |
| `Multiplex.MultiplexReader.Read` | internal/rsyncwire/wire.go:84-113 | One message per read: data is returned, what is logged yields nothing, tag 5 and unknown tags fail, and it panics exactly when the next data payload exceeds the buffer |
| `Multiplex.MessagesDeliver` | internal/rsyncwire/wire.go:37-113 | Well-sized non-fatal messages deliver the concatenation of their data payloads |
| `Multiplex.MessageByNumber` | internal/rsyncwire/wire.go:17-113 | A message byte by byte, by its tag's number: 0 is delivered, 1, 2, 3, 4 and 6 are passed over, 5 and every other tag end the stream |
| `Multiplex.LongDataIsCut` | internal/rsyncwire/wire.go:37-82 | A data message of 2^24 to 2^27 bytes is read as one of its length mod 2^24, or refused, because the rest of its length falls into the tag |
| `Multiplex.MsgRoundTrip` | internal/rsyncwire/wire.go:37-82 | A message reads back exactly when its payload is within 256 KiB |
| `Multiplex.MultiplexWriter.WriteMsg` | internal/rsyncwire/wire.go:37-45 | Writes the framed message |
| `Bytes.ParsePutInt64` | internal/rsyncwire/wire.go:165-216 | Every int64 survives its short or long wire form |
| `Bytes.Int32RoundTrip` | internal/rsyncwire/wire.go:161-196 | Every int32 survives the wire |
| `Bytes.LittleEndian` | internal/rsyncwire/wire.go:161-163 | An int32 travels with its lowest byte first |
| `Bytes.Int64Forms` | internal/rsyncwire/wire.go:165-175 | An int64 of 31 bits travels as an int32, any other as four bytes 255, its low half and its high half |

## Left out

- Sums beyond 2^31 entries and file sizes near the int64 limit: offsets are unbounded integers.
- Sessions: sockets, TLS, SSH, authentication, option parsing, module configuration and namespaces.
- MD4 itself, varints, 64-bit times and checksum negotiation.
- Read, seek or reopen failures after a file was opened, and files that change during a run, so sendFile's second hashing goroutine hashes the same content.
- Aliasing of the slice `ptr` returns with the map's window: the model returns the bytes, and each caller uses them before the next request.
- The native staging file (renameio) is modelled by the same staging class as the virtual one; write errors to it are not modelled.
- ProtocolRuns.CompletedRun: covers regular files under --checksum; directories, links and devices cause no messages, and dry runs, other skip rules and the permission pass are left out. Messages are steps: each party reads and writes a whole request or reply in order on its own connection.
- FileMap.MapStruct.Ptr: reads are those of os.File, which return at least one byte or the end of the file; an `fs.File` may also return its last bytes together with io.EOF, which ptr takes for a changed file.
- Sender.SendFile: the same assumption; data together with io.EOF would be dropped, and a read of no bytes would be sent as the end marker.
- ProtocolWire.RunOnWire: a message is written and read as a whole; a sender that crashes leaves no part of one.
- WholeTransfer.StartTransfer: lists of regular files.
- Vanishing: a file may fail to open on the sender at any request; the model leaves its destination as it was.
- Permissions, ownership, times, symbolic links and device nodes on the destination.
- FileListExchange.SendFileList: takes the walk's items as given; directory walking, prefix stripping and user lookups are left out, and filepath.Clean and local id lookup are parameters.
- FileList.IdsRoundTrip: names of at most 255 bytes; what a longer one does is in `FileList.LongNameReadsOn` and `FileList.IdsReadBackExactly`.
- RecvFilterList and the clear-list rule, which the source parses but never acts on.
- Delete.Destination.DeleteFiles: the tree is the one at the start of the walk, and a listing fails as a whole.
- Cancellation of the worker pool's parent context, and buffer pooling.
- RateLimit.GrantedWithinRate: reals for floats, and a clock that does not run backwards; fairness among several waiters is not claimed because it fails.
- Multiplex.BufferedReader.ReadFull: callers that go on reading after an error are not modelled.
- Progress output, logging and transfer statistics.
