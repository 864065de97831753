# Verification of the reassembly, parsing and correlation core of triomon

This project models the algorithms of triomon that decide what an analyst gets to see (stream and
fragment reassembly, the pattern matcher under the MIME splitter, the containers they share, the FTP
correlation state machine and the wire-format decoders) and proves what they promise.

Code that changes state step by step is modelled as classes and methods with loops; each method is
proved against a function that gives its effect on a value, and the theorems are lemmas about those
functions over every run. Run `dafny verify dfyconfig.toml` to check everything.

| file | models |
|---|---|
| `Wrappers.dfy`, `Sets.dfy`, `Bytes.dfy`, `OrderedMaps.dfy` | optional values; sizes of finite sets; big-endian integers; maps iterated by ascending key (`QMap`) |
| `TcpReassembly.dfy`, `TcpDelivery.dfy`, `TcpDataStream.dfy` | one direction of a TCP session: its operations, what it delivers, and the class |
| `FileStreamAssembler.dfy` | the 64-entry reordering window in front of a file |
| `IPv4Packet.dfy`, `IPv4Fragments.dfy`, `IPv4Reassembly.dfy` | IPv4 headers; the fragment store and the rebuild; what comes out of them |
| `UnbufferedReader.dfy`, `PartBuilder.dfy` | Knuth-Morris-Pratt reading; cutting a multipart body |
| `PopularityList.dfy` | the least-recently-used list, as linked list plus hash map |
| `MergedEnumerable.dfy` | the k-way merge |
| `BloomFilter.dfy`, `BloomFilterExportable.dfy`, `BloomHashSet.dfy`, `WordDictionary.dfy` | Bloom filters, export and import, the exact hybrid, the dictionary |
| `SatoriTcpOsFingerprinter.dfy` | the two-level memo of the TCP fingerprinter |
| `FtpPacketHandler.dfy`, `FtpTransfers.dfy` | FTP control and data correlation; that announced transfers come about |
| `DnsPacket.dfy`, `GtpPacket.dfy` | DNS names and messages, GTP headers |
| `DecodeTree.dfy`, `Encapsulation.dfy` | the encapsulation layers of a frame; that what was wrapped is unwrapped |

## What the proofs showed about the code

- TCP: a segment that is sent again after it was read is buffered and read a second time
  (`TcpDelivery.ResentSegmentIsReadAgain`, with a run in `TcpDelivery.ResentExample`). Over whole runs
  the accounting is exact if and only if no segment was (`TcpDelivery.BalancedIff`). With additions and
  removals alone `HasMissingSegments` is never true (`TcpReassembly.NeverMissing`); with `Clear` and
  `SetInitialTcpSequenceNumber` it is true exactly when fewer bytes were taken since the last `Clear`
  than lie between the initial number set last and the expected one (`TcpReassembly.MissingIff`). A
  single segment beyond a gap counts as readable (`TcpDelivery.ReadableIff`).
- File assembler: with an unknown length, all segments are kept if and only if a remaining length was
  set or there is only one (`FileStreamAssembler.UnknownLengthIff`). The FTP handler leaves it unset
  (the call is commented out), so of every transfer it only keeps the first segment
  (`FtpPacketHandler.OnlyFirstSegmentKept`).
- IPv4: a datagram is rebuilt if and only if the fragment with MF clear arrives last
  (`IPv4Reassembly.ReassemblyIff`): an earlier one drops what was collected. The key has no protocol
  field, unlike section 3.2 of RFC 791, so fragments of two datagrams that differ only in protocol are
  collected together and can be rebuilt into one (`IPv4Reassembly.ProtocolsMix`).
- MIME: the parts of a body all come back if and only if each has content and no blank line behind its
  first line. A part with a header section, as section 5.1.1 of RFC 2046 describes it, never does, nor
  does any part behind it (`PartBuilder.RoundTripIff`, `PartBuilder.HeaderedPartIsLost`).
- FTP: a transfer that is announced, asked for and connected gets its assembler among any other traffic
  (`FtpTransfers.TransferMade`) as long as fewer than 20 other transfers are put in front of it. Not only
  announcements do that: so does the handshake of each transfer that is pending without a client port
  (`FtpTransfers.HandshakePushes`).
- FTP: a port octet above 255 is truncated to its low byte instead of refused (`FtpPacketHandler.PortRead`).
- DNS: a compression pointer that goes backward can still be read forever
  (`DnsPacket.BackwardIsNotEnough`). Reading ends if and only if it ends within as many steps as there
  are bytes (`DnsPacket.TerminationIff`), and it does when every pointer goes in front of the whole run
  of labels that it ends (`DnsPacket.DescendingIsEnough`).
- Decode tree: layers nest, except that the 0x8130 branch skips four bytes without looking at the end
  of the packet (`DecodeTree.InnerLies`, with a frame in `Encapsulation.SkippedPastEnd`). A payload of
  a single byte is shown behind a GRE header and behind no other, and a VLAN tag does not know MPLS,
  mirrored or bridged frames (`Encapsulation.NestGives`).
- Dictionary: upper-case forms are added to the letters, lower-case ones are not, so `IsLetter` can
  deny bytes of spellings that `HasWord` accepts (`WordDictionary.SpellingsIff`,
  `WordDictionary.CapitalsExample`).

## Model

| member | source | states |
|---|---|---|
| TcpReassembly.RunAccounted | PacketParser/TcpDataStream.cpp:59-92 | after any adds and removals, of any data at any numbers, at least every byte the contiguous run has passed and every byte buffered ahead of it has been counted |
| TcpReassembly.NeverMissing | PacketParser/TcpDataStream.cpp:55-57 | the missing-segment test is false after every run of adds and removals |
| TcpReassembly.MissingIff | PacketParser/TcpDataStream.cpp:55-98 | after any run of adds, removals, clears and changes of the initial number, the missing-segment test is true if and only if fewer bytes were taken since the last clear than the signed 32-bit distance from the initial number set last to the expected number |
| TcpReassembly.MissingExamples | PacketParser/TcpDataStream.cpp:94-98 | one byte that was read and cleared counts as missing, and so do bytes an initial number set afterwards asks for |
| TcpReassembly.InsertSurplus | PacketParser/TcpDataStream.cpp:59-71 | no addition, of any data at any number, lets what was counted beyond the run and the bytes ahead of it shrink, and none moves the expected number back |
| TcpReassembly.RemoveSurplus | PacketParser/TcpDataStream.cpp:73-88 | nor does any removal |
| TcpDelivery.InsertTiles | PacketParser/TcpDataStream.cpp:59-71 | adding a segment of a text that was cut anywhere keeps the buffer tiled: all pieces from the read position to the expected number are there, and the one at the expected number is not |
| TcpDelivery.RemoveTiles | PacketParser/TcpDataStream.cpp:73-88 | removing any number of bytes within the run, in the middle of a segment too, moves the read position by exactly that many and keeps the tiling |
| TcpDelivery.InsertBalanced | PacketParser/TcpDataStream.cpp:59-71 | adding keeps the accounting: total = (expected - initial) + bytes buffered above expected |
| TcpDelivery.RemoveBalanced | PacketParser/TcpDataStream.cpp:73-88 | removing within the run leaves the bytes buffered above the expected number alone |
| TcpDelivery.CountsAgree | PacketParser/TcpDataStream.cpp:100-123 | when something can be read, the byte count is the length of exactly the packets counted, and the distance from the read position to the expected number |
| TcpDelivery.ReadableIff | PacketParser/TcpDataStream.cpp:100-109 | bytes are announced if and only if the run is not empty or a single segment is buffered, which is the approximate fallback: the length of the run, or of that segment |
| TcpDelivery.ReadTakesNext | PacketParser/TcpDataStream.cpp:9-45 | one read takes min(6, countable) packets and delivers the next bytes of the text, at least one |
| TcpDelivery.FrontierIsFirstMissing | PacketParser/TcpDataStream.cpp:64-69 | the expected number is the first position of the text that has not arrived |
| TcpDelivery.ReadSound | PacketParser/TcpDataStream.cpp:20-45 | a read followed by its removal extends the output by the next bytes of the text, and by at least one whenever some are contiguous |
| TcpDelivery.ReadsReachFrontier | PacketParser/TcpDataStream.cpp:125-129 | repeated reads deliver the text up to the expected number |
| TcpDelivery.Reassembly | PacketParser/TcpDataStream.cpp:9-45 | for any text, any cut, any arrival order with any reads in between and no segment sent again after it was read: the output is always a prefix, the accounting holds, nothing counts as missing, and draining gives everything up to the first missing byte |
| TcpDelivery.CompleteReassembly | PacketParser/TcpDataStream.cpp:59-129 | once every segment has arrived, draining gives the whole text |
| TcpDelivery.ResentSegmentIsReadAgain | PacketParser/TcpDataStream.cpp:61-63 | any segment sent again after it was read is buffered, read again and breaks the accounting |
| TcpDelivery.BalancedIff | PacketParser/TcpDataStream.cpp:59-92 | over whole runs of arrivals of any segments and reads, the accounting is exact in the end if and only if no segment arrived again after it was read |
| TcpDelivery.ResentExample | PacketParser/TcpDataStream.cpp:61-63 | a text of one byte that arrives twice and is read each time is delivered twice |
| TcpDataStream.Stream.AddTcpData | PacketParser/TcpDataStream.cpp:59-71 | the new buffer, total and expected number, the latter by the loop over buffered followers, for any data at any number |
| TcpDataStream.Stream.RemoveData | PacketParser/TcpDataStream.cpp:73-92 | the loop that erases whole segments and cuts the last one, and forgets the virtual packet |
| TcpDataStream.Stream.Clear | PacketParser/TcpDataStream.cpp:94-98 | buffer and total are emptied, the expected number stays |
| TcpDataStream.Stream.SetInitialTcpSequenceNumber | PacketParser/TcpDataStream.hpp:47 | only the initial number changes, and the virtual packet stays |
| TcpDataStream.Stream.CountPacketsToRead | PacketParser/TcpDataStream.cpp:111-123 | the loop counts the packets that follow each other without a gap |
| TcpDataStream.Stream.GetAllAvailableTcpData | PacketParser/TcpDataStream.cpp:125-129 | a virtual packet that has grown until it cannot |
| TcpDataStream.Stream.GetNextVirtualTcpData | PacketParser/TcpDataStream.cpp:131-142 | a new virtual packet when bytes are announced, else the same one grown by one packet, or null |
| TcpDataStream.VirtualTcpData.TryAppendNextPacket | PacketParser/TcpDataStream.cpp:20-27 | grows by one exactly when there are more bytes, more packets and fewer than six |
| TcpDataStream.VirtualTcpData.GetBytes | PacketParser/TcpDataStream.cpp:35-45 | the header of twenty zero bytes on demand, then the bytes of the first packets |
| FileStreamAssembler.AddDataConsistent | PacketHandlerFramework/FileTransfer/FileStreamAssembler.cpp:185-219 | any segment keeps at most 64 window entries and assembled bytes = bytes written + bytes in the window |
| FileStreamAssembler.RunConsistent | PacketHandlerFramework/FileTransfer/FileStreamAssembler.cpp:185-219 | the same after every run |
| FileStreamAssembler.SortedIff | PacketHandlerFramework/FileTransfer/FileStreamAssembler.cpp:197-204 | for accepted segments with distinct numbers, the file is in ascending order if and only if no segment comes after more than 64 larger ones |
| FileStreamAssembler.WindowSorts | PacketHandlerFramework/FileTransfer/FileStreamAssembler.cpp:185-227 | in that case the finished file is the accepted segments concatenated in ascending order of their numbers |
| FileStreamAssembler.FinalKeys | PacketHandlerFramework/FileTransfer/FileStreamAssembler.cpp:197-227 | exactly the accepted segments are written in the end |
| FileStreamAssembler.UnknownLengthTakesOne | PacketHandlerFramework/FileTransfer/FileStreamAssembler.cpp:206-209 | a counted assembler with unknown length and nothing remaining keeps its first segment only |
| FileStreamAssembler.UnknownLengthIff | PacketHandlerFramework/FileTransfer/FileStreamAssembler.cpp:185-219 | for segments with distinct numbers and a counted assembler of unknown length: all are accepted if and only if a remaining length was set or there is at most one |
| FileStreamAssembler.UnknownLengthFile | PacketHandlerFramework/FileTransfer/FileStreamAssembler.cpp:185-227 | with a remaining length the finished file is then all segments in ascending order, when none comes after more than 64 larger ones |
| FileStreamAssembler.UnknownLengthKeepsFirst | PacketHandlerFramework/FileTransfer/FileStreamAssembler.cpp:206-209 | without one the finished file is the first segment that is not empty, whatever comes before and after |
| FileStreamAssembler.KnownLengthFile | PacketHandlerFramework/FileTransfer/FileStreamAssembler.cpp:185-212 | with a known length, for the six kinds that end by it: the segments of a file are all accepted, the assembler is active after every proper prefix and inactive after the last, and the file is all of them in ascending order, when none comes after more than 64 larger ones |
| FileStreamAssembler.RemainingRunsOut | PacketHandlerFramework/FileTransfer/FileStreamAssembler.cpp:188-209 | the other counted kinds go inactive exactly when what remained has been taken, whatever their length |
| FileStreamAssembler.ChunkedIff | PacketHandlerFramework/FileTransfer/FileStreamAssembler.cpp:210-218 | a chunked file accepts everything, and is finished if and only if a segment ends in the last chunk |
| FileStreamAssembler.ChunkedFile | PacketHandlerFramework/FileTransfer/FileStreamAssembler.cpp:210-218 | its file is what came up to the last chunk in ascending order, and what follows is turned away |
| FileStreamAssembler.TftpTakesAll | PacketHandlerFramework/FileTransfer/FileStreamAssembler.cpp:185-219 | a TFTP file accepts everything and stays active |
| FileStreamAssembler.TurnedAwayIff | PacketHandlerFramework/FileTransfer/FileStreamAssembler.cpp:186-195 | a segment changes nothing if and only if the assembler is inactive, the segment is empty, its number is in the window, or it is longer than what remains of a known length |
| FileStreamAssembler.ExtendedEnds | PacketHandlerFramework/FileTransfer/FileStreamAssembler.cpp:170-172 | when the remaining bytes are set in the middle of a file, that many more complete it |
| FileStreamAssembler.Assembler.AddData | PacketHandlerFramework/FileTransfer/FileStreamAssembler.cpp:185-219 | the new window, counters, activity and file, for every kind of file |
| FileStreamAssembler.Assembler.WriteOverflow | PacketHandlerFramework/FileTransfer/FileStreamAssembler.cpp:200-204 | the loop writes the smallest entries until 64 are left |
| FileStreamAssembler.Assembler.FinishAssembling | PacketHandlerFramework/FileTransfer/FileStreamAssembler.cpp:221-227 | the window is written out in ascending order and emptied |
| FileStreamAssembler.Assembler.SetRemainingBytesInFile | PacketHandlerFramework/FileTransfer/FileStreamAssembler.cpp:170-172 | the length becomes the bytes assembled plus those remaining |
| IPv4Reassembly.TilingByCounting | PacketParser/Packets/IPv4Packet.cpp:131-155 | disjoint fragments pass the per-fragment bound check if and only if they cover [0, sum of lengths) exactly, so a hole is always rejected |
| IPv4Reassembly.PasteBytes | PacketParser/Packets/IPv4Packet.cpp:148-156 | every payload byte is taken from the fragment that holds it |
| IPv4Reassembly.RebuildsPayload | PacketParser/Packets/IPv4Packet.cpp:140-156 | a complete set of fragments in any order is rebuilt to the payload |
| IPv4Fragments.ArriveOwn | PacketParser/Packets/IPv4Packet.cpp:113-163 | a fragment acts on its own list in the store as if there were no other lists |
| IPv4Fragments.ArriveOther | PacketParser/Packets/IPv4Packet.cpp:123-129 | a fragment of another datagram leaves a list alone while fewer than 1024 keys are in front of it |
| IPv4Fragments.ProtocolsShareAList | PacketParser/Packets/IPv4Packet.cpp:113-129 | fragments of two datagrams that differ only in protocol are collected into one list |
| IPv4Reassembly.Isolation | PacketParser/Packets/IPv4Packet.cpp:103-194 | over any interleaving, the fragments of one source, destination and identification give the outputs they would give alone, when they are not crowded out of the store |
| IPv4Reassembly.EarlyLastRejected | PacketParser/Packets/IPv4Packet.cpp:140-162 | rebuilding before all fragments are there fails |
| IPv4Reassembly.ProtocolsMix | PacketParser/Packets/IPv4Packet.cpp:113-189 | two fragments of different protocols that fit together are rebuilt into one datagram with the protocol of the last |
| IPv4Reassembly.ReassemblyIff | PacketParser/Packets/IPv4Packet.cpp:113-194 | for the fragments of a datagram in any order, interleaved with others: exactly the original payload comes out, once, if the MF=0 fragment is last and the size is allowed, and nothing ever otherwise |
| IPv4Reassembly.SentIsRebuilt | PacketParser/Packets/IPv4Packet.cpp:44-194 | from the bytes of fragments that were sent with any headers, in any order and among other traffic: one datagram comes out, byte for byte the header of the last fragment made unfragmented and the whole payload, if that fragment has MF clear and the size is allowed, and nothing otherwise |
| IPv4Reassembly.CapturesReads | PacketParser/Packets/IPv4Packet.cpp:44-101 | what the store gets to see of an encoded fragment: its payload, offset, MF flag, addresses, identification and protocol |
| IPv4Packet.HeaderReads | PacketParser/Packets/IPv4Packet.cpp:19-101 | an encoded header is read back with every field, the offset in bytes; it is refused exactly when it announces more than 9038 bytes and more than were captured, bytes behind the announced ones are cut off, and 0 announces all |
| IPv4Reassembly.PatchReparses | PacketParser/Packets/IPv4Packet.cpp:166-189 | the rebuilt datagram parses, with offset 0, MF clear, total length equal to its size, the payload, and the addresses, identification and protocol of the last fragment |
| IPv4Fragments.FragmentStore.GetReassembled | PacketParser/Packets/IPv4Packet.cpp:107-194 | the store and the result after one packet; only fragments are collected |
| IPv4Fragments.FragmentStore.Reassemble | PacketParser/Packets/IPv4Packet.cpp:113-194 | the store and the result after one fragment |
| IPv4Fragments.FragmentStore.Enter | PacketParser/Packets/IPv4Packet.cpp:119-129 | the list is looked up, created if need be, extended and put back |
| IPv4Fragments.FragmentStore.Totals | PacketParser/Packets/IPv4Packet.cpp:131-138 | the loop adds up the lengths and looks for an MF=0 fragment |
| IPv4Fragments.FragmentStore.RebuildFrom | PacketParser/Packets/IPv4Packet.cpp:140-189 | the size limit, the rebuild and the patched header |
| IPv4Fragments.FragmentStore.CopyPayloads | PacketParser/Packets/IPv4Packet.cpp:147-156 | the loop copies in place until a fragment is out of bounds |
| UnbufferedReader.FindIsFirst | PacketParser/Mime/UnbufferedReader.cpp:29-58 | the position that reading to a pattern is specified by is that of the first occurrence |
| UnbufferedReader.FindAllNone | PacketParser/Mime/UnbufferedReader.cpp:29-58 | -1 means that there is no occurrence |
| UnbufferedReader.FallBack | PacketParser/Mime/UnbufferedReader.cpp:49-50 | falling back to the longest border loses no match |
| UnbufferedReader.Advance | PacketParser/Mime/UnbufferedReader.cpp:42-54 | taking the next byte keeps the longest match, and no occurrence is passed over |
| UnbufferedReader.Reader.KmpFailureFunction | PacketParser/Mime/UnbufferedReader.cpp:60-78 | each entry is the longest proper prefix that is also a suffix |
| UnbufferedReader.Reader.ReadTo | PacketParser/Mime/UnbufferedReader.cpp:29-58 | the first occurrence at or after the position with exactly the bytes through its end, or -1 with the rest; at most 2 * bytes read iterations |
| UnbufferedReader.Reader.ReadLine | PacketParser/Mime/UnbufferedReader.cpp:9-27 | the visible bytes of the line up to the limit, a null string for none and at the end |
| UnbufferedReader.PrintableKept | PacketParser/Mime/UnbufferedReader.cpp:16-24 | of printable bytes and tabs all are kept, up to the limit |
| PartBuilder.GetParts | PacketParser/Mime/PartBuilder.cpp:10-47 | terminates; the parts are the slices given by the line structure of the input |
| PartBuilder.ReadToBoundary | PacketParser/Mime/PartBuilder.cpp:23-29 | the inner loop ends at a boundary line with the length of the part before it, or gives up at a null line |
| PartBuilder.PartsWellPlaced | PacketParser/Mime/PartBuilder.cpp:18-43 | parts are disjoint and in order; each starts at the start or right behind a boundary line, ends right before CRLF and a boundary line, and holds no line that reads as a boundary |
| PartBuilder.NothingAfterFinal | PacketParser/Mime/PartBuilder.cpp:39-43 | nothing behind the first final boundary line is returned |
| PartBuilder.DecodeEncode | PacketParser/Mime/PartBuilder.cpp:10-47 | of a multipart body for any parts exactly those up to the first with a blank line behind its first come back, without the empty ones |
| PartBuilder.RoundTripIff | PacketParser/Mime/PartBuilder.cpp:25-28 | all parts come back if and only if each has content and no blank line behind its first line |
| PartBuilder.HeaderedPartIsLost | PacketParser/Mime/PartBuilder.cpp:25-28 | of parts of which one has a header section and an empty line, exactly those in front of it that have no such line themselves are returned, without the empty ones |
| PopularityList.SizeBounded | PacketParser/PopularityList.hpp:74-96 | after any run of all operations, with expansion and expiry, the size is within the pool and the pool within the larger of its bounds |
| PopularityList.Conservation | PacketParser/PopularityList.hpp:29-112 | with a handler, over any run: what was there plus what was added = what is there + what was reported + what was replaced, removed or cleared, counted with multiplicity |
| PopularityList.HoldsMostRecent | PacketParser/PopularityList.hpp:74-107 | with a fixed pool of n and no expiry, after any adds and lookups the list is the n keys used last, latest first, with the values added last |
| PopularityList.AddedExactly | PacketParser/PopularityList.hpp:74-96 | adding to a list within its pool: the pair comes first, what has expired at the back goes, and if there is then one entry too many the pool grows by one when it may and the last entry goes when it may not |
| PopularityList.ExpiredAreDropped | PacketParser/PopularityList.hpp:83-87 | what goes is exactly the expired entries at the back, up to the first that has not |
| PopularityList.UseKeepsRecent | PacketParser/PopularityList.hpp:80-95 | one use of a key keeps that order and that choice of keys |
| PopularityList.FrontKeeps | PacketParser/PopularityList.hpp:89-95 | using another key does not evict an entry while fewer than n keys are in front of it |
| PopularityList.LinkedUnlink | PacketParser/PopularityList.hpp:60-66 | erasing a node from both keeps map and list holding the same distinct keys, each map entry at its own node |
| PopularityList.LinkedPush | PacketParser/PopularityList.hpp:80-81 | so does pushing a new node to the front |
| PopularityList.List.Add | PacketParser/PopularityList.hpp:74-96 | both loops terminate; the new contents, pool size and reports |
| PopularityList.List.TryGetValue | PacketParser/PopularityList.hpp:98-107 | the value, and the entry moved to the front |
| PopularityList.List.Remove | PacketParser/PopularityList.hpp:60-72 | the entry is gone from both structures and reported on demand |
| PopularityList.List.LastNodePopularityLost | PacketParser/PopularityList.hpp:29-41 | the last entry is gone from both structures and reported |
| PopularityList.List.Clear | PacketParser/PopularityList.hpp:109-112 | nothing is left and nothing is reported |
| PopularityList.List.DropOldEntries | PacketParser/PopularityList.hpp:83-87 | entries are dropped from the back while the last one has expired |
| PopularityList.List.ShrinkToPool | PacketParser/PopularityList.hpp:89-95 | the pool is expanded or entries are dropped until they fit |
| MergedEnumerable.Interleaves | SharedUtils/MergedEnumerable.hpp:47-83 | for any comparison, however odd: the merge terminates, every element is produced once and each input's order is kept |
| MergedEnumerable.MergesStably | SharedUtils/MergedEnumerable.hpp:69-75 | for inputs sorted under a strict weak order the result is a stable sort of their concatenation; ties go to the earlier input |
| MergedEnumerable.StableSortUnique | SharedUtils/MergedEnumerable.hpp:69-75 | there is only one such sequence |
| MergedEnumerable.BestBeats | SharedUtils/MergedEnumerable.hpp:69-74 | the element selected is beaten by none that is left and beats all of earlier inputs |
| MergedEnumerable.AggregatedEnumerator.MoveNext | SharedUtils/MergedEnumerable.hpp:47-76 | the next element of the merge becomes current, and false means that nothing is left |
| MergedEnumerable.AggregatedEnumerator.AdvanceAll | SharedUtils/MergedEnumerable.hpp:48-56 | the first call advances every enumerator and erases the empty ones |
| MergedEnumerable.AggregatedEnumerator.AdvanceCurrent | SharedUtils/MergedEnumerable.hpp:57-67 | later calls advance the current enumerator and erase it when it is exhausted |
| MergedEnumerable.AggregatedEnumerator.Current | SharedUtils/MergedEnumerable.hpp:78-81 | the element of the current enumerator, or a default value before the first and behind the last |
| BloomFilter.IndexBits | SharedUtils/BloomFilter.cpp:29-34 | the size is the least power of two that is not below bits per element times estimate |
| BloomFilter.HashCountBounds | SharedUtils/BloomFilter.cpp:37-42 | for any estimate of at least one there are ten to twenty hash functions |
| BloomFilter.HashCountExact | SharedUtils/BloomFilter.cpp:38-42 | seven tenths of the bits per word, rounded down, and one for an empty estimate |
| BloomFilter.IndexWraps | SharedUtils/BloomFilter.cpp:18-23 | in 32-bit arithmetic that overflows, hash times number times 7, masked, is the index used here |
| BloomFilter.DigestIndex | SharedUtils/BloomFilterExportable.cpp:38-53 | the index made of four digest bytes, most significant first, at offset 4 or 5, with the algorithm for the number of functions |
| BloomFilter.BitsExact | SharedUtils/BloomFilter.cpp:81-115 | after any run of adds, conditional adds, clears and merges with filters of any history, a bit is set if and only if a word that was added sets it |
| BloomFilter.FoundIff | SharedUtils/BloomFilter.cpp:88-110 | a word is found if and only if added words set all its bits; so an added word is found, in any letter case |
| BloomFilter.CountIsKept | SharedUtils/BloomFilter.cpp:81-115 | after any run the count is that of the words accepted, and a conditional add takes place if and only if it is below half the bits |
| BloomFilter.Filter.constructor | SharedUtils/BloomFilter.cpp:27-43 | an empty filter of that size and that many hash functions |
| BloomFilter.Filter.GetIndexes | SharedUtils/BloomFilter.cpp:9-25 | one index per hash function of the folded word, each within the array |
| BloomFilter.Filter.AddWord | SharedUtils/BloomFilter.cpp:104-110 | exactly the bits of the word are added and the count goes up by one |
| BloomFilter.Filter.HasWord | SharedUtils/BloomFilter.cpp:88-94 | true if and only if all bits of the word are set |
| BloomFilter.Filter.TryAddWord | SharedUtils/BloomFilter.cpp:96-102 | adds while there are fewer words than half the bits |
| BloomFilter.Filter.MergeWith | SharedUtils/BloomFilter.cpp:81-86 | the union of the bits and the sum of the counts, also with itself and with a longer array |
| BloomFilter.Filter.Clear | SharedUtils/BloomFilter.cpp:112-115 | no bit is set and the count is zero |
| BloomFilter.FromWords | SharedUtils/BloomFilter.cpp:45-50 | for any bits per element, case-sensitive or not: the state of a filter of the size and hash count for the list that was given every word of it |
| BloomFilterExportable.Create | SharedUtils/BloomFilterExportable.cpp:26-29 | from a size estimate the refusal never happens |
| BloomFilterExportable.ExportAsBase64 | SharedUtils/BloomFilterExportable.cpp:57-66 | the text of bytes that hold the bits, eight to a byte, and no others |
| BloomFilterExportable.CreateFromBase64 | SharedUtils/BloomFilterExportable.cpp:68-79 | the bits of the text, none beyond it, and no word count |
| BloomFilterExportable.ExportImport | SharedUtils/BloomFilterExportable.cpp:57-79 | for the same estimate, shape and bits come back as they were |
| BloomFilterExportable.FoundAfterImport | SharedUtils/BloomFilterExportable.cpp:57-79 | after any history, export and import find the same words, and every added one |
| BloomHashSet.Exact | SharedUtils/BloomHashSet.cpp:23-64 | after any adds, conditional adds and clears: while the hash set is in use a word is found if and only if it was added since the last clear; after the switch it is never denied |
| BloomHashSet.SwitchIff | SharedUtils/BloomHashSet.cpp:23-48 | after any run the hash set is in use if and only if no word accepted since the last clear was added to a full set |
| BloomHashSet.KeptIsBounded | SharedUtils/BloomHashSet.cpp:24-38 | the hash set never holds more than 100001 words |
| BloomHashSet.HashSet.AddWord | SharedUtils/BloomHashSet.cpp:23-41 | the new filter, set, mode and character count |
| BloomHashSet.HashSet.TryAddWord | SharedUtils/BloomFilter.cpp:96-102 | the inherited guard around the overridden AddWord |
| BloomHashSet.HashSet.Clear | SharedUtils/BloomHashSet.cpp:43-48 | filter and set are empty and the set is used again |
| BloomHashSet.HashSet.HasWord | SharedUtils/BloomHashSet.cpp:50-64 | filter first, then the set if it is in use |
| WordDictionary.TokenListed | PacketParser/CleartextTools/WordDictionary.cpp:31-42 | every maximal stretch of a line without separators is among its tokens |
| WordDictionary.LinesRead | PacketParser/CleartextTools/WordDictionary.cpp:27-30 | the lines read from a text are those written, with line feeds alone or after carriage returns |
| WordDictionary.KeptIff | PacketParser/CleartextTools/WordDictionary.cpp:48-53 | the word list is exactly the lower-case forms of the tokens of at least three bytes |
| WordDictionary.LongestReached | PacketParser/CleartextTools/WordDictionary.cpp:48-60 | the longest length is that of a kept token or what it was before |
| WordDictionary.TokensAreKept | PacketParser/CleartextTools/WordDictionary.cpp:27-44 | this holds for every line of the file, with a trailing carriage return left out |
| WordDictionary.TokensAreFound | PacketParser/CleartextTools/WordDictionary.cpp:16-87 | with the words and longest length that loading a text leaves, every such token is found in any letter case |
| WordDictionary.Dictionary.LoadedIsFound | PacketParser/CleartextTools/WordDictionary.cpp:73-87 | in every state of the dictionary a loaded word passes both the length test and the filter |
| WordDictionary.Dictionary.LoadDictionaryFile | PacketParser/CleartextTools/WordDictionary.cpp:16-46 | the filter is replaced, letters and longest length only grow, and without a file nothing changes |
| WordDictionary.Dictionary.AddLine | PacketParser/CleartextTools/WordDictionary.cpp:32-42 | the tokenising loop adds the tokens of the line |
| WordDictionary.Dictionary.HasWord | PacketParser/CleartextTools/WordDictionary.cpp:73-87 | length between three and the longest, and in the filter |
| WordDictionary.SpellingsIff | PacketParser/CleartextTools/WordDictionary.cpp:48-71 | with the letters of any earlier loads: all spellings of kept tokens consist of letters if and only if each letter that occurs also occurs in lower case, or was a letter before |
| WordDictionary.CapitalsExample | PacketParser/CleartextTools/WordDictionary.cpp:48-71 | of a file with the one word ABC, abc is found and none of its bytes is a letter |
| SatoriTcpOsFingerprinter.BestIsGreatest | PacketHandlerFramework/Fingerprints/SatoriTcpOsFingerprinter.cpp:70-80 | the naive scan finds the greatest weight of a matching test of at least three, or -1 for none |
| SatoriTcpOsFingerprinter.BestForFlags | PacketHandlerFramework/Fingerprints/SatoriTcpOsFingerprinter.cpp:55-68 | looking only at the tests for the flags finds the same |
| SatoriTcpOsFingerprinter.HighestIsGreatest | PacketHandlerFramework/Fingerprints/SatoriTcpOsFingerprinter.cpp:140-152 | the overall maximum is reached and exceeded by none |
| SatoriTcpOsFingerprinter.HavingSuffices | PacketHandlerFramework/Fingerprints/SatoriTcpOsFingerprinter.cpp:127-138 | leaving out fingerprints without tests for the flags changes neither the maximum nor who reaches it |
| SatoriTcpOsFingerprinter.AnswerMeans | PacketHandlerFramework/Fingerprints/SatoriTcpOsFingerprinter.cpp:138-152 | when a weight is the greatest of all qualifying tests, the names with that weight replace what was listed, or follow it when the weight is 3; when none qualifies nothing changes |
| SatoriTcpOsFingerprinter.NamesOf | PacketHandlerFramework/Fingerprints/SatoriTcpOsFingerprinter.cpp:140-152 | one fingerprint after the other, the names of exactly those whose heaviest qualifying test has that weight |
| SatoriTcpOsFingerprinter.AskedIs | PacketHandlerFramework/Fingerprints/SatoriTcpOsFingerprinter.cpp:116-124 | the last TCP and the last IPv4 packet are matched, and nothing when either is missing |
| SatoriTcpOsFingerprinter.FlagsRead | PacketHandlerFramework/Fingerprints/SatoriTcpOsFingerprinter.cpp:21-26 | SYN, ACK and FIN are read from a flag byte with any other bits set |
| SatoriTcpOsFingerprinter.TcpFingerprint.ContainsFingerprintsForTcpFlags | PacketHandlerFramework/Fingerprints/SatoriTcpOsFingerprinter.cpp:55-68 | true if and only if there are tests for the flags, whatever was remembered; afterwards they or the sentinel are |
| SatoriTcpOsFingerprinter.TcpFingerprint.GetHighestMatchWeight | PacketHandlerFramework/Fingerprints/SatoriTcpOsFingerprinter.cpp:70-80 | the weight of the naive scan, in every state of the cache |
| SatoriTcpOsFingerprinter.Fingerprinter.TryGetOperatingSystems | PacketHandlerFramework/Fingerprints/SatoriTcpOsFingerprinter.cpp:115-157 | in every state reached by earlier queries: the names of exactly the fingerprints with the maximal weight, in load order, when it is at least three, and when something is reported |
| SatoriTcpOsFingerprinter.Fingerprinter.CollectNames | PacketHandlerFramework/Fingerprints/SatoriTcpOsFingerprinter.cpp:140-152 | the loop with the running maximum ends with that list |
| FtpPacketHandler.HandshakeInv | PacketHandlerFramework/PacketHandlers/FtpPacketHandler.cpp:67-86 | a handshake keeps all invariants, re-keying the transfer it learns the port of |
| FtpPacketHandler.ControlInv | PacketHandlerFramework/PacketHandlers/FtpPacketHandler.cpp:97-185 | so does every command and reply; exactly a readable PORT or 227 adds a transfer |
| FtpPacketHandler.ConcludeInv | PacketHandlerFramework/PacketHandlers/FtpPacketHandler.cpp:198-223 | so does creating an assembler |
| FtpPacketHandler.RunInv | PacketHandlerFramework/PacketHandlers/FtpPacketHandler.cpp:55-226 | and so does every run from a state with the invariants |
| FtpPacketHandler.Safety | PacketHandlerFramework/PacketHandlers/FtpPacketHandler.cpp:55-226 | over all event orders: every pending transfer lies under its own current key, established ones have a known port, each announcement gives at most one assembler, and files come from the FTP server for RETR and from the client for STOR in both modes |
| FtpPacketHandler.OnlyFirstSegmentKept | PacketHandlerFramework/PacketHandlers/FtpPacketHandler.cpp:214-215 | after any events, whatever segments are then given to an assembler that was created, its finished file is the first of them that is not empty |
| FtpPacketHandler.CommandCompletes | PacketHandlerFramework/PacketHandlers/FtpPacketHandler.cpp:128-144 | a STOR or RETR for an established transfer creates its assembler with the right ends |
| FtpPacketHandler.HandshakeCompletes | PacketHandlerFramework/PacketHandlers/FtpPacketHandler.cpp:75-84 | the handshake of an announced connection creates the assembler when the direction is known |
| FtpTransfers.TransferMade | PacketHandlerFramework/PacketHandlers/FtpPacketHandler.cpp:55-226 | from any state with the invariants: a PORT command or 227 reply, a STOR or RETR and the handshake of the data connection, in either order, with fewer than 20 other transfers put in front in between, fewer than 100 sessions opened since its own, nothing else asked for on the control connection and nothing else reaching or announcing the port: exactly one assembler is made, with the hosts of the session, the announced port on the side that listened and the handshake's port on the other, the command and the file name, and the transfer is forgotten |
| FtpTransfers.FirstTransfer | PacketHandlerFramework/PacketHandlers/FtpPacketHandler.cpp:55-226 | of the three events alone on a new control connection one assembler is made, in either order |
| FtpTransfers.AnnounceStep | PacketHandlerFramework/PacketHandlers/FtpPacketHandler.cpp:116-127 | any announcement makes its transfer wait, first in the pending list, under the key without a client port |
| FtpTransfers.WaitingStep | PacketHandlerFramework/PacketHandlers/FtpPacketHandler.cpp:67-223 | any other event leaves a waiting transfer alone and pushes it back by no more than the transfers it puts in front |
| FtpTransfers.HandshakePushes | PacketHandlerFramework/PacketHandlers/FtpPacketHandler.cpp:75-82 | the handshake of a transfer that waits behind puts its key in front of a waiting one, just as an announcement does |
| FtpTransfers.NothingCompleteWaits | PacketHandlerFramework/PacketHandlers/FtpPacketHandler.cpp:198-223 | over every run in which no control packet comes in the middle of a handshake, no session is left with a transfer that has its command and its handshake |
| FtpTransfers.RepeatedHandshake | PacketHandlerFramework/PacketHandlers/FtpPacketHandler.cpp:67-73 | a handshake seen again for a transfer that still waits for its command is claimed and changes nothing |
| FtpTransfers.HandledIff | PacketHandlerFramework/PacketHandlers/FtpPacketHandler.cpp:65-90 | an event is claimed if and only if it is an FTP packet or the handshake of an announced connection |
| FtpPacketHandler.PortRead | PacketHandlerFramework/PacketHandlers/FtpPacketHandler.cpp:233-249 | the port of a PORT argument is read back if and only if both octets are below 256; larger ones lose their high byte |
| FtpPacketHandler.TokenSplits | PacketHandlerFramework/PacketHandlers/FtpPacketHandler.cpp:235 | commas, blanks and line ends separate the numbers, several of them as one |
| FtpPacketHandler.AddressFound | PacketHandlerFramework/PacketHandlers/FtpPacketHandler.cpp:161-173 | the address in a 227 reply is found between any text without digits |
| FtpPacketHandler.Handler.TryExtractData | PacketHandlerFramework/PacketHandlers/FtpPacketHandler.cpp:55-226 | the new sessions, transfers, lists and assemblers, and the result |
| FtpPacketHandler.Handler.DataHandshake | PacketHandlerFramework/PacketHandlers/FtpPacketHandler.cpp:67-86 | the two lookups and the re-keying |
| FtpPacketHandler.Handler.HandleControl | PacketHandlerFramework/PacketHandlers/FtpPacketHandler.cpp:97-185 | PORT, STOR, RETR and 227 |
| FtpPacketHandler.Handler.ConcludeTransfer | PacketHandlerFramework/PacketHandlers/FtpPacketHandler.cpp:198-223 | the assembler is created and the transfer forgotten once everything is known |
| DnsPacket.TerminationIff | PacketParser/Packets/DnsPacket.cpp:23-39 | on any bytes, reading a name ends inside them if and only if it does within as many steps as there are bytes, which can be checked beforehand |
| DnsPacket.EncodedIsReadable | PacketParser/Packets/DnsPacket.cpp:23-39 | any finite name is read with exactly its labels within as many steps as there are bytes, as no position is read twice |
| DnsPacket.DescendingIsEnough | PacketParser/Packets/DnsPacket.cpp:26-31 | reading ends when every pointer that is reached goes strictly in front of the run of labels that it ends |
| DnsPacket.BackwardIsNotEnough | PacketParser/Packets/DnsPacket.cpp:27-31 | in a message whose question is a label and a pointer back to it, reading never ends |
| DnsPacket.GetNameLabelList | PacketParser/Packets/DnsPacket.cpp:23-39 | on any bytes on which reading ends, by loop and recursion, exactly the labels read |
| DnsPacket.ReadingIsUnique | PacketParser/Packets/DnsPacket.cpp:23-39 | bytes read as at most one name, so what a pointer means is settled by the bytes it points to |
| DnsPacket.NameReads | PacketParser/Packets/DnsPacket.cpp:9-39 | a name written with labels and a pointer to any earlier offset whose bytes read as a name is read with its meaning |
| DnsPacket.SkipName | PacketParser/Packets/DnsPacket.cpp:51-60 | on any bytes, the index behind the name by its length bytes |
| DnsPacket.SkipsEncoded | PacketParser/Packets/DnsPacket.cpp:51-60 | behind an encoded name, that is where it ends |
| DnsPacket.ReadRecord | PacketParser/Packets/DnsPacket.cpp:41-83 | the record at any bytes from which it can be read, or the data it announces |
| DnsPacket.RecordReads | PacketParser/Packets/DnsPacket.cpp:41-83 | owner name, type, class, TTL, data length, data or names and byte count of an encoded answer are those encoded |
| DnsPacket.ReadQuestion | PacketParser/Packets/DnsPacket.cpp:149-166 | the first question, with type and class missing when they were not captured, or none |
| DnsPacket.ReadAnswers | PacketParser/Packets/DnsPacket.cpp:168-183 | the loop decodes as many records as announced, each where the one before ends, until the data does |
| DnsPacket.RecordsRead | PacketParser/Packets/DnsPacket.cpp:168-183 | so every encoded answer is decoded to what it means |
| DnsPacket.Parse | PacketParser/Packets/DnsPacket.cpp:122-185 | on any bytes from which a message can be read, cut-off headers and undecoded operations included, its fields, question and records |
| DnsPacket.RoundTrip | PacketParser/Packets/DnsPacket.cpp:122-185 | for any message with any operation below 5 and any flags, with a question or without, whose names end or point back to anything sent earlier that reads as a name, wherever the message lies in the data: every name, type, class, TTL and length decoded is the one encoded, and the reply is a name for type 5 in queries and for all types in inverse queries, raw bytes for others in queries, and nothing otherwise |
| DnsPacket.OthersNotDecoded | PacketParser/Packets/DnsPacket.cpp:128-142 | of operations from 5 on only identification and flags are decoded, and nothing of less than a header |
| DnsPacket.AskedReads | PacketParser/Packets/DnsPacket.cpp:149-166 | of any number of questions the first is read, without type and class when they were cut off |
| DnsPacket.CompressedIsWellFormed | PacketParser/Packets/DnsPacket.cpp:27-31 | a message compressed by pointers to any label of earlier names, as section 4.1.4 of RFC 1035 has it, is such a message |
| DnsPacket.RecordsTile | PacketParser/Packets/DnsPacket.cpp:62-66 | the byte counts of the records add up to the answer section |
| GtpPacket.RoundTrip | PacketParser/Packets/GtpPacket.cpp:11-53 | for any message type, optional fields, list of extension headers and payload, the parse finds exactly the payload of a G-PDU, right behind them; an empty one, and that of any other type, is not reported |
| GtpPacket.OtherVersions | PacketParser/Packets/GtpPacket.cpp:16-25 | other versions carry nothing; the endpoint identifier is read in version 2 exactly when its flag is set |
| GtpPacket.TunneledInside | PacketParser/Packets/GtpPacket.cpp:48-53 | on any bytes, a tunneled packet lies inside the packet and ends where the length field says |
| GtpPacket.WalksExtensions | PacketParser/Packets/GtpPacket.cpp:30-43 | the walk over extension headers stops right behind the last one |
| GtpPacket.SkipExtensions | PacketParser/Packets/GtpPacket.cpp:33-42 | the walk terminates on any bytes |
| DecodeTree.InnerLies | PacketParser/Packets/Ethernet2Packet.cpp:24-77 | a held packet starts at least four bytes later and ends no later, and is not empty if and only if the 0x8130 branch did not skip past the end |
| DecodeTree.ConstructorsBuild | PacketParser/Packets/IPv6Packet.cpp:40-68 | every constructor leaves a packet that ends inside the frame, clamped or not, with its fields read when they were captured |
| DecodeTree.LayersNest | PacketParser/Packets/Ethernet2Packet.cpp:108-123 | through any nesting, every layer lies in the one around it and the n-th starts at least 4n bytes in |
| DecodeTree.LayersAreFew | PacketParser/Packets/IEEE_802_1Q_VlanPacket.cpp:41-82 | n bytes hold at most n/4 layers, whatever is nested |
| DecodeTree.OnlyLastOutside | PacketParser/Packets/Ethernet2Packet.cpp:59-60 | only the last layer can lie outside |
| DecodeTree.NoneLost | PacketParser/Frame.cpp:34-40 | keying the packets of a frame by start index loses none |
| DecodeTree.GetSubPackets | PacketParser/Packets/Ethernet2Packet.cpp:108-123 | terminates and lists all layers, outermost first |
| DecodeTree.PacketList | PacketParser/Frame.cpp:34-40 | the map that the frame keeps |
| DecodeTree.NewIPv6 | PacketParser/Packets/IPv6Packet.cpp:40-60 | the end index is moved down to the announced payload |
| Encapsulation.FrameGives | PacketParser/Packets/Ethernet2Packet.cpp:24-123 | for any nesting of VLAN tags, bridged, skipped and mirrored frames around IP datagrams or anything else: the layers found in the frame are exactly those that were wrapped, with their types, starts and ends |
| Encapsulation.NestGives | PacketParser/Packets/IEEE_802_1Q_VlanPacket.cpp:41-82 | so are those of whatever lies behind a type field; a tag shows the types it does not know as raw data, and a single byte behind it not at all |
| Encapsulation.TunnelGives | PacketParser/Packets/GrePacket.cpp:37-52 | so are those of a GRE tunnel, whose payload starts right behind the optional fields that were sent |
| Encapsulation.HopByHopGives | PacketParser/Packets/IPv6Packet.cpp:10-37 | so are those behind a hop-by-hop option header, which is as long as it says |
| Encapsulation.GreReads | PacketParser/Packets/GrePacket.cpp:9-35 | a GRE header with any optional fields is found as long as it was sent, with the type that was sent |
| Encapsulation.ErspanReads | PacketParser/Packets/Erspan.cpp:9-39 | an ERSPAN header is found as long as it was sent, with the eight more bytes its last bit announces |
| Encapsulation.Ip4Reads | PacketParser/Packets/IPv4Packet.cpp:19-101 | an IPv4 header with any options, fragmented or not, is read back, and the packet ends with its payload, in front of any padding |
| Encapsulation.Ip6Reads | PacketParser/Packets/IPv6Packet.cpp:40-68 | so does an IPv6 packet |
| Encapsulation.SkippedPastEnd | PacketParser/Packets/Ethernet2Packet.cpp:59-60 | in a frame of type 0x8130 with 16 bytes the inner packet starts at 18, behind its end |

## Left out

- TcpDataStream.Stream.AddTcpData: requires that no sequence number wraps at 2^32; totals of 2^31 bytes and more, where the source's `int` would overflow, are not modelled.
- TcpDelivery.Reassembly: a segment sent again after it was read is excluded; TcpDelivery.BalancedIff and TcpDelivery.ResentSegmentIsReadAgain say what happens then.
- FileStreamAssembler.Assembler.FinishAssembling: moving, decompressing and removing the file are left out; the output is a growing byte sequence, and opening it (`tryActivate`) is assumed to succeed.
- FileStreamAssembler.WindowSorts: about accepted segments with distinct numbers; a number that comes again after its segment was written is accepted again by the code.
- IPv4Fragments.FragmentStore.Reassemble: requires that the payload a fragment's length field announces was captured; the source copies past the frame otherwise. The lock around the store is left out.
- IPv4Fragments.FragmentStore.GetReassembled: likewise for a packet that arrives.
- IPv4Fragments.FragmentStore.RebuildFrom: likewise for every fragment in the list.
- IPv4Fragments.FragmentStore.CopyPayloads: likewise for every fragment in the list.
- IPv4Reassembly.PatchReparses: what the rebuilt packet contains (its sub-packets in a new frame) is not followed.
- PopularityList.List.constructor: pool sizes are not negative, and the delegates are functions of the entries and values.
- MergedEnumerable.AggregatedEnumerator.Current: `Reset` is left out.
- BloomFilter.Filter.GetIndexes: the string hash and the digests are arbitrary functions; sizes are unbounded integers, while the source needs 15 * estimate to fit an `int`. The number of hash functions is computed over the reals.
- BloomFilter.FromWords: for the base class only; in derived classes the word-list constructor runs before the overriding methods exist.
- BloomFilter: `CalculateOverlap` is floating-point statistics and left out.
- BloomFilterExportable.ExportImport: base64 is any pair of functions that undo each other.
- SatoriTcpOsFingerprinter.Fingerprinter.TryGetOperatingSystems: reading the XML file is left out, and matching a p0f signature is an arbitrary predicate.
- FtpPacketHandler.Handler.TryExtractData: credentials, parameter and anomaly events and banners are left out; a TCP packet is always present; keys are tuples instead of strings; `GetValue`, which the list does not have, is a lookup that moves nothing.
- FtpPacketHandler.Handler.HandleControl: USER, PASS and reply 230, which only record credentials, are left out.
- FtpPacketHandler.PortRead: signs and blanks inside an octet, which `toUShort` may accept, are left out.
- DnsPacket.Parse: requires that the source stays inside the captured data, which it does not check, and ends; DnsPacket.TerminationIff says when it ends. Formatting of addresses and names is left out.
- DnsPacket.RoundTrip: of messages with one question or none, as the source reads only the first and takes what follows for answers.
- PartBuilder.GetParts: reading the header fields of a part (`MultipartPart`) is left out.
- DecodeTree.GetSubPackets: fragments of IPv4 datagrams end the list (see IPv4Reassembly), and transport, ARP, MPLS, PPPoE and logical link packets are leaves. The VLAN constructor reads its type field one byte past the data when exactly three bytes of the tag were captured; that value is never used.
- GtpPacket.RoundTrip: the packet inside the tunnel is not followed.
- Object lifetimes, mutexes, windows, sockets, capture and the database are not modelled.
