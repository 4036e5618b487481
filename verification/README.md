# GPCC: verified model of its stateful algorithms

This project models parts of GPCC, an embedded C++ class library, in Dafny and proves what they promise.

* **CANopen objects on streams.** MemStreamWriter and MemStreamReader keep a partially used byte and mix bit-wise and
  byte-wise access. The writer and reader classes here have the fields of the original; their abstract value is a
  sequence of bits with a capacity or a position (StreamSpec), and every method is proved against it. On top of them:
  the typed operations, the conversion of native data to CANopen-encoded data and back, and RECORD and ARRAY objects
  that serialise packed native memory from a table of descriptions.
* **Fast forms of simple definitions.** Table-driven CRC against a bit-serial register, MD5 against RFC 1321, the two-row
  Levenshtein loop against shortest edit scripts, BitField searches against linear scans.
* **String algorithms.** The wildcard matcher and ConditionalConcat.
* **Locks.** Object dictionary and smart pointers: over all runs, reference counting does what plain pointers would do.
* **Line editor.** The screen, driven by cursor and delete commands only, always shows the edited line.
* **Time.** TimePoint arithmetic is exact and overflows exactly where it must.

Memory is bytes or 32-bit words as numbers below 256 or 2^32; shifts and bitwise operators are defined bit by bit in
UInt. An exception is a result value. Callbacks of objects are parameters: the abort code they return.

## Results that differ from the documentation

* The wildcard matcher is not exact for all patterns: once the part behind the last `*` has matched, the search is not
  resumed (src/string/tools.cpp:1145-1148). `SimplePattern.TestIs` and `SimplePattern.ExactPatterns` say exactly when it
  is; `SimplePattern.Counterexample` is an instance.
* The difference of two time points is refused for some differences a time span could hold; `TimePoints.RefusedDifference`
  is an instance, `TimePoints.TimePoint.Difference` states the exact limit.
* Copying an ObjectPtr fails while a writer waits for the dictionary (src/osal/universal/RWLock.cpp:276), and so does a
  look-up when a writer is blocked between its two steps. The contracts of `CopyConstruct`, `Assign` and `GetLocked` say
  exactly when; `ObjectDictionaries.CopyWhileWriterWaits` is an instance.

## Modules

| files | content |
|---|---|
| UInt, WordBits, BitMemory, Ascii | unsigned integers bit by bit, 32-bit words, bits in memory, upper and lower case |
| StreamSpec, MemStreamWriter, StreamWriterBase, MemStreamReader, StreamReaderBase, StreamRoundTrip | streams |
| DataTypes, ObjectCodec | data types and their encoding |
| RecordSpec, TableRules, RecordRoundTrip, ObjectRecord, RecordTheorems | RECORD objects |
| ObjectArray, ArrayTheorems, ArrayTransfer | ARRAY objects |
| AccessRights | when access to RECORD and ARRAY objects is refused |
| CrcSpec, CrcResidue, SimpleCrc | CRC |
| Levenshtein, SimplePattern, ConditionalConcat | strings |
| Md5Spec, Md5, Md5Sum, Md5KnownAnswer | MD5 |
| BitField | bit fields |
| ObjectDictionary, DictionaryRuns, DictionaryWalk | dictionary, smart pointers, locks, enumeration |
| TimePoint | time |
| CliTerminal, CliLists, CliEditor, CliRuns, CliLaws | command line interface |

## Model

| member | source | states |
|---|---|---|
| MemStreamWriters.MemStreamWriter.Push | src/stream/MemStreamWriter.cpp:328-375 | cached bits are padded with zeros to a byte first; the byte goes behind them if it fits, else the stream fails; closed and failed streams report their error; memory behind the write position is untouched |
| MemStreamWriters.MemStreamWriter.PushBlock | src/stream/MemStreamWriter.cpp:376-436 | the same for n bytes, all or nothing behind the flushed bits; zero bytes are no access in any state |
| MemStreamWriters.MemStreamWriter.PushBits | src/stream/MemStreamWriter.cpp:437-506 | appends up to eight bits without alignment; fails exactly if the bit string would exceed the capacity; more than eight bits are refused without effect |
| MemStreamWriters.MemStreamWriter.Close | src/stream/MemStreamWriter.cpp:308-324 | memory holds the written bits, padded with zeros to a whole byte; nothing behind is touched; a stream that had failed or was closed changes no memory |
| StreamWriterBase.WriteUint | src/stream/StreamWriterBase.cpp:63-142 | one, two, four or eight pushes write the integer: on success byte i in the stream is digit i of the number to the base 256, counted from the low end on a little-endian and from the high end on a big-endian stream; the first failing push decides the error |
| StreamWriterBase.WriteUints | src/stream/StreamWriterBase.cpp:87-148 | the array forms write the concatenation of the single forms; on success each number has its bytes in this order |
| StreamSpec.OrderedDigits | src/stream/StreamWriterBase.cpp:73-86 | byte i of a number is v / 256^i % 256 in little-endian order and v / 256^(k-1-i) % 256 in big-endian order |
| StreamWriterBase.IntsDigits | src/stream/StreamWriterBase.cpp:87-148 | the same for each number of an array |
| StreamSpec.BytesBitsAt | src/stream/MemStreamWriter.cpp:437-506 | bit 8 * i + j of the stream is bit j of byte i, the least significant bit first |
| StreamWriterBase.FillBits | src/stream/StreamWriterBase.cpp:37-54 | n equal bits, written in groups of up to eight |
| StreamWriterBase.FillBytes | src/stream/StreamWriterBase.cpp:56-61 | n equal bytes, aligned to the byte boundary |
| StreamWriterBase.AlignToByteBoundary | src/stream/StreamWriterBase.cpp:30-35 | fills up to the next byte boundary with ones or zeros and reports how many bits it took; never exceeds the capacity |
| StreamWriterBase.WriteBools | src/stream/StreamWriterBase.cpp:221-226 | one bit per bool |
| StreamWriterBase.WriteBitArray | src/stream/StreamWriterBase.cpp:237-248 | the first n bits of a byte array, in chunks |
| StreamWriterBase.WriteString | src/stream/StreamWriterBase.cpp:259-265 | the characters and a NUL |
| StreamWriterBase.WriteLine | src/stream/StreamWriterBase.cpp:266-272 | the characters and a line feed |
| MemStreamReaders.MemStreamReader.Pop | src/stream/MemStreamReader.cpp:852-901 | drops cached bits and reads the next byte, or fails for good |
| MemStreamReaders.MemStreamReader.PopBlock | src/stream/MemStreamReader.cpp:902-954 | drops cached bits and reads n bytes, or fails for good; zero bytes are no access in any state |
| MemStreamReaders.MemStreamReader.PopBits | src/stream/MemStreamReader.cpp:955-1017 | the next n bits, crossing byte boundaries, first bit in the least significant place; more than eight bits are refused without effect |
| MemStreamReaders.MemStreamReader.Skip | src/stream/MemStreamReader.cpp:575-683 | byte jumps and shifts of the cached bits have the outcome of reading n bits: same success, same error, same state behind |
| MemStreamReaders.MemStreamReader.SkipByReading | src/stream/StreamReaderBase.cpp:30-41 | the loop of the base class, which reads and drops bits, has the same specification as Skip |
| MemStreamReaders.SkipFails | src/stream/MemStreamReader.cpp:575-683 | skipping succeeds exactly if n is at most cached bits + 8 * remaining bytes; otherwise the stream is in the error state |
| MemStreamReaders.AbsDeterminesState | src/stream/MemStreamReader.cpp:575-683 | readers of the same memory with the same bits and position agree in state, pointer, remaining bytes and cached bits: Skip and the base-class loop leave the same object behind |
| MemStreamReaders.MemStreamReader.SubStream | src/stream/MemStreamReader.cpp:277-328 | the sub-stream shows the next n bytes, this stream continues behind them; too few bytes change nothing |
| MemStreamReaders.MemStreamReader.Shrink | src/stream/MemStreamReader.cpp:357-392 | the end of the stream moves forward, cached bits stay readable; a larger size is refused without effect |
| MemStreamReaders.MemStreamReader.RemainingBytes | src/stream/MemStreamReader.cpp:500-517 | the number of whole bytes still to be read |
| MemStreamReaders.MemStreamReader.EnsureAllDataConsumed | src/stream/MemStreamReader.cpp:520-567 | succeeds exactly if the number of remaining bits meets the expectation |
| MemStreamReaders.MemStreamReader.ReadString | src/stream/MemStreamReader.cpp:684-750 | the characters before the first NUL, which is consumed; without a NUL the stream fails |
| MemStreamReaders.MemStreamReader.ReadLine | src/stream/MemStreamReader.cpp:751-848 | the characters before NUL, LF, CR or the end; consumes NUL, LF, CR or CR LF |
| StreamRoundTrip.LineEnds | src/stream/MemStreamReader.cpp:751-848 | a text without terminators is read back in front of NUL, LF, CR, CR LF and the end of the stream; CR LF is consumed as one |
| MemStreamReaders.MemStreamReader.Close | src/stream/MemStreamReader.cpp:569-574 | every later access reports the closed stream |
| StreamReaderBase.ReadUint | src/stream/StreamReaderBase.cpp:43-111 | on success the number below 256^k whose digits to the base 256 the next k bytes are, from the low end on a little-endian and from the high end on a big-endian stream; else the error of the failing pop |
| StreamReaderBase.ReadUints | src/stream/StreamReaderBase.cpp:187-204 | the array forms read as many numbers, each from its own bytes in this order, or fail like one read of all bytes |
| StreamReaderBase.IntDigits | src/stream/StreamReaderBase.cpp:48-63 | the value of k bytes is the number below 256^k with these digits |
| StreamReaderBase.ReadBools | src/stream/StreamReaderBase.cpp:240-245 | one bit per bool |
| StreamReaderBase.ReadBitArray | src/stream/StreamReaderBase.cpp:246-256 | n bits, packed into bytes, the last one filled up with zeros |
| StreamRoundTrip.WriteSucceedsIffFits | src/stream/MemStreamWriter.cpp:328-506 | for any list of typed writes in either byte order: success exactly if the layout of the list fits, and then the stream holds the layout |
| StreamRoundTrip.ReadItemBack | src/stream/MemStreamReader.cpp:852-1017 | one typed read at the position where the item was written returns it and ends where the write ended |
| StreamRoundTrip.RoundTrip | src/stream/MemStreamReader.cpp:520-567 | any list of bit groups, bit arrays, integers, byte arrays, NUL-free strings and lines: writing succeeds exactly if the byte-aligned end fits; the same reads return the same items from the exactly sized closed stream and leave at most seven bits |
| StreamRoundTrip.Transfer | src/stream/MemStreamWriter.cpp:308-324 | the same with a writer object, its memory, Close, and a reader object, whose EnsureAllDataConsumed(sevenOrLess) succeeds |
| ObjectCodec.NativeDataToCANopenEncodedData | src/cood/Object.cpp:462-606 | native data of any supported type and count becomes exactly its stream data, complete or single access, with alignment by kind of type; unsupported types and zero elements write nothing |
| ObjectCodec.CANopenEncodedDataToNativeData | src/cood/Object.cpp:663-868 | the native data that the stream data stands for, including short and unterminated visible strings; errors of the stream pass through |
| ObjectCodec.DecodeEncoded | src/cood/Object.cpp:462-868 | decoding what was encoded yields, byte by byte: for booleans 1 where the byte is not 0 and 0 elsewhere; for visible strings the characters as long as none up to them is NUL, and 0 elsewhere; for packed data the bits of all elements, and spare bits cleared; for all other types the native data |
| ObjectCodec.EncodedSends | src/cood/Object.cpp:462-606 | what is sent: one bit per boolean, the bits of packed data, the zero-filled characters, and the bytes of each number of one, two, four or eight bytes in the byte order of the stream |
| ObjectCodec.DeterminedSize | src/cood/Object.cpp:378-401 | the size computed in advance is the number of bits a single access writes |
| ObjectRecords.CheckEntry | src/cood/ObjectRECORD.cpp:105-231 | accepts exactly the entries that obey the rules for empty, gap and normal subindices, given the entry before; reports an unsupported type exactly for a named entry of such a type |
| ObjectRecords.CheckTable | src/cood/ObjectRECORD.cpp:83-236 | accepts exactly the well-formed tables, and then adds up the size of the object in the stream, padding included; reports an unsupported type exactly if an entry has one and all entries before it are in order |
| TableRules.EntryRules | src/cood/ObjectRECORD.cpp:105-231 | accepted entries: nothing at all; a named gap; one to eight bits that lie inside the structure; or bytes that lie inside it, one element or a string of at most 65534 bits |
| TableRules.AcceptedTables | src/cood/ObjectRECORD.cpp:83-236 | accepted tables: at most 64 KiB; entries of these kinds; no gap behind a gap, with nothing but empty entries in between; byte-based data behind a gap on a byte boundary of the stream; and a mutex if anything is writeable |
| ObjectRecords.WriteBits | src/cood/ObjectRECORD.cpp:992-1019 | exactly the addressed bits of the structure are replaced, also across a byte boundary |
| ObjectRecords.ReadBits | src/cood/ObjectRECORD.cpp:1047-1067 | the addressed bits of the structure |
| ObjectRecords.ObjectRECORD.Read | src/cood/ObjectRECORD.cpp:457-532 | single read: permission, gap, empty and callback outcomes in the order of the code, and the stream data of the subindex |
| ObjectRecords.ObjectRECORD.Write | src/cood/ObjectRECORD.cpp:535-654 | single write: outcomes in the order of the code; only the addressed cell changes, and only on success |
| ObjectRecords.ObjectRECORD.CompleteRead | src/cood/ObjectRECORD.cpp:657-750 | SI0, then every subindex: read-only data, zeros for write-only data and gaps, with alignment |
| ObjectRecords.ObjectRECORD.CompleteWrite | src/cood/ObjectRECORD.cpp:753-962 | collects the stream into zeroed memory, checks SI0 and the rest of the stream, and then either replaces the whole structure or copies the writeable cells |
| ObjectRecords.ObjectRECORD.GetObjectStreamSize | src/cood/ObjectRECORD.cpp:408-414 | the size summed up by the constructor, with SI0: the position behind the last entry in a stream that starts byte-aligned |
| RecordTheorems.CompleteReadSize | src/cood/ObjectRECORD.cpp:408-414 | from a byte boundary, complete read with SI0 emits exactly the bits that the constructor added up; it fails exactly if they do not fit |
| RecordTheorems.EntryInStream | src/cood/ObjectRECORD.cpp:657-750 | where complete read puts each subindex and what it puts there: zeros for gaps and write-only data, the bits of packed data, and all other data as sent by its type; the padding in front of it is zero |
| AccessRights.CompleteReadRights | src/cood/ObjectRECORD.cpp:657-700 | complete read is refused exactly if it includes SI0 and the permissions have none of the bits 0x407, or some non-empty subindex has some of these bits but none in common with the permissions; otherwise a veto of the callback is the outcome; nothing is written in these cases |
| AccessRights.CompleteWriteRights | src/cood/ObjectRECORD.cpp:753-783 | complete write is refused as read-only exactly if some non-empty subindex has some of the attributes 0x38 but none in common with the permissions; stream and data stay as they are |
| AccessRights.CompleteWriteVeto | src/cood/ObjectRECORD.cpp:753-962 | the callback decides where the write would succeed, and then its code is the outcome and the data stays |
| AccessRights.WrongSI0 | src/cood/ObjectRECORD.cpp:791-801 | a transmitted SI0 of 8 or 16 bits other than the number of subindices is refused, in either byte order |
| RecordTheorems.CompleteWriteOutcome | src/cood/ObjectRECORD.cpp:753-876 | complete write consumes exactly those bits: too short a stream gives TooSmall, a surplus that the expectation does not allow gives TooLong (for sevenOrLess: at least a whole byte), anything else OK |
| RecordTheorems.RefusedLeavesDataAlone | src/cood/ObjectRECORD.cpp:535-962 | any outcome but OK leaves the native data as it was |
| RecordTheorems.CompleteTransfer | src/cood/ObjectRECORD.cpp:657-962 | complete read and complete write to another RECORD with the same table and disjoint ranges: OK; cells with an attribute of 0x38 become zero if they have none of 0x407, keep the bits of A if packed, and else arrive byte by byte as in DecodeEncoded; all other cells stay |
| RecordTheorems.ReadToMemory | src/cood/ObjectRECORD.cpp:657-750 | complete read through a writer: what is left in the memory when it has been closed is the stream data |
| RecordTheorems.CopyObject | src/cood/ObjectRECORD.cpp:657-962 | the same with two objects, a writer, a reader and the memory between them |
| RecordTheorems.SingleTransfer | src/cood/ObjectRECORD.cpp:457-654 | single read and single write of one subindex: OK, the cell arrives as in CompleteTransfer, no other bit of the structure changes |
| RecordTheorems.StringArrives | src/cood/Object.cpp:725-790 | a visible string is sent up to its first NUL, and arrives zero-filled behind it, whatever stands there at the sender |
| RecordTheorems.StringReceived | src/cood/Object.cpp:725-790 | any characters in a single write: at most n are taken; fewer are zero-filled behind the first NUL or behind the last one |
| RecordTheorems.ReadDelivers | src/cood/ObjectRECORD.cpp:457-532 | what a successful single read adds to the stream: zeros for a gap, the characters of a string up to its first NUL, and else the data as in complete read |
| AccessRights.ReadRights | src/cood/ObjectRECORD.cpp:457-532 | single read, in terms of attributes and permissions: which subindices do not exist, which are not readable, and when the callback decides; nothing is written in these cases |
| AccessRights.WriteRights | src/cood/ObjectRECORD.cpp:535-654 | single write: the same, SI0 is read-only, and the callback decides where the write would succeed |
| RecordSpec.GetAllConsumes | src/cood/ObjectRECORD.cpp:807-858 | collecting succeeds exactly if the stream holds the computed number of bits |
| RecordRoundTrip.CopiedCell | src/cood/ObjectRECORD.cpp:884-944 | with disjoint ranges, copying cell by cell gives every writeable cell its new value and keeps every other cell |
| ObjectArrays.ObjectARRAY.ReadBitsFromMem | src/cood/ObjectARRAY.cpp:782-814 | the bits (k-1)w to kw of the packed native data |
| ObjectArrays.ObjectARRAY.WriteBitsToMem | src/cood/ObjectARRAY.cpp:841-882 | exactly these bits are replaced, across the byte boundary if need be |
| ObjectArrays.ObjectARRAY.Read | src/cood/ObjectARRAY.cpp:344-404 | single read of SI0 or an element, with the outcomes in the order of the code |
| ObjectArrays.ObjectARRAY.Write | src/cood/ObjectARRAY.cpp:407-536 | single write of SI0 (in its bounds) or an element |
| ObjectArrays.ObjectARRAY.CompleteRead | src/cood/ObjectARRAY.cpp:539-609 | SI0 and the first SI0 elements; zeros for write-only data |
| ObjectArrays.ObjectARRAY.CompleteWrite | src/cood/ObjectARRAY.cpp:612-753 | SI0 is checked against bounds and access rights, elements are stored without touching memory above the last one; other outcomes change nothing |
| AccessRights.ReadRightsOfArray | src/cood/ObjectARRAY.cpp:344-404 | single read, in terms of attributes and permissions; subindex 0 delivers SI0 as one byte |
| AccessRights.WriteRightsOfArray | src/cood/ObjectARRAY.cpp:407-536 | single write, in terms of attributes and permissions; only success changes the object |
| AccessRights.WriteSI0OfArray | src/cood/ObjectARRAY.cpp:407-470 | a write to subindex 0 stores the byte sent if it is in the bounds, and reports which bound it violates otherwise |
| AccessRights.WriteVetoOfArray | src/cood/ObjectARRAY.cpp:407-536 | the callback decides where the write would succeed, and then its code is the outcome and nothing changes |
| AccessRights.CompleteReadRightsOfArray | src/cood/ObjectARRAY.cpp:539-609 | complete read is refused exactly if SI0 is included and not readable with the permissions, or there are elements that are readable, but not with the permissions; otherwise a veto of the callback is the outcome |
| AccessRights.CompleteWriteRightsOfArray | src/cood/ObjectARRAY.cpp:612-700 | complete write: a SI0 that is writeable, but not with the permissions, is refused before anything is read; then come a read-only SI0 that differs, the bounds, and elements that are writeable, but not with the permissions; nothing changes in these cases |
| AccessRights.CompleteWriteVetoOfArray | src/cood/ObjectARRAY.cpp:612-753 | the callback decides where the write would succeed, and then its code is the outcome and nothing changes |
| ArrayTheorems.SingleReadIsSlice | src/cood/ObjectARRAY.cpp:600-606 | a single read of subindex k returns bits (k-1)w to kw of what complete read emits behind SI0, for packed, boolean and numeric elements in either byte order |
| ArrayTheorems.SingleWriteChangesElement | src/cood/ObjectARRAY.cpp:407-536 | on success the native bits of the element are what the stream data stands for; no other bit and not SI0 changes |
| ArrayTheorems.CompleteWriteKeepsRest | src/cood/ObjectARRAY.cpp:706-735 | complete write leaves all native bits above SI0 * w as they were, and SI0 in its bounds |
| ArrayTheorems.CompleteWriteStoresElements | src/cood/ObjectARRAY.cpp:706-735 | after a complete write of packed data, element k is element k of the stream data |
| ArrayTransfer.CompleteReadOfArray | src/cood/ObjectARRAY.cpp:311-319 | complete read, with or without SI0, emits exactly SI0 and SI0 * w bits, with SI0 as many as GetObjectStreamSize says; it fails exactly if they do not fit |
| ArrayTransfer.CompleteWriteOutcomeOfArray | src/cood/ObjectARRAY.cpp:612-753 | complete write from a byte boundary: an SI0 that is not acceptable is refused with its code, too short a stream gives TooSmall, a surplus that the expectation does not allow gives TooLong, anything else OK; only OK changes the object |
| ArrayTransfer.CompleteTransferOfArray | src/cood/ObjectARRAY.cpp:539-753 | complete read and complete write to another ARRAY with the same description, with or without SI0: SI0 and all elements arrive (write-only data as zeros, packed data with its bits, and all other data byte by byte as in DecodeEncoded), read-only data and native data above the last element stay; the only refusal is a read-only SI0 that differs |
| CrcSpec.FeedByte | src/crc/simple_crc.cpp:692-695 | taking in a byte bit by bit is one table look-up and one shift of the register |
| CrcSpec.FeedLinear | src/crc/simple_crc.cpp:270-496 | the register is linear in its start value and the message |
| CrcSpec.Chunks | src/crc/simple_crc.cpp:733-739 | processing concatenated chunks is processing them one after the other |
| CrcSpec.Duality | src/crc/simple_crc.cpp:438-496 | reflected form with reversed polynomial and start value is the reversed result of the normal form with the opposite input order, for every message |
| CrcSpec.Residue | src/crc/simple_crc.cpp:32-38 | a receiver that runs the algorithm over message and checksum gets a value that depends only on width, polynomial and final xor |
| CrcResidue.Bzip2Magic | src/crc/simple_crc.cpp:32-38 | CRC-32 BZIP2, checksum high byte first: always 0x38FB2284 |
| CrcResidue.EthernetMagic | src/crc/simple_crc.cpp:91-97 | CRC-32 Ethernet, checksum low byte first: always 0x2144DF1C |
| CrcResidue.Crc16Magic | src/crc/simple_crc.cpp:146-152 | CRC-16 without final xor: always 0 |
| CrcResidue.Crc8Magic | src/crc/simple_crc.cpp:203-208 | CRC-8 ITU-T: always 0xF9 |
| SimpleCrc.GenerateTable_normal | src/crc/simple_crc.cpp:438-454 | for widths 8, 16 and 32 and any wider loop variable, entry i is what eight steps of the bit-serial register make of i |
| SimpleCrc.GenerateTable_reflected | src/crc/simple_crc.cpp:480-496 | the same for the reflected form |
| SimpleCrc.CalcCrc8 | src/crc/simple_crc.cpp:530-533 | one byte through the table equals eight bits through the serial register |
| SimpleCrc.CalcCrc_normal | src/crc/simple_crc.cpp:1011-1095 | the same for 16 and 32 bits, normal form, with and without input reversal |
| SimpleCrc.CalcCrc_reflected | src/crc/simple_crc.cpp:1173-1257 | the same for the reflected form |
| SimpleCrc.CalcCrcChunk | src/crc/simple_crc.cpp:1052-1058 | the loop over a chunk equals the serial register over all its bits |
| Levenshtein.ShortestScript | src/string/levenshtein_distance.cpp:24-30 | the distance is attained by some script of insert, remove and replace operations, and by no shorter one, with or without regard to the case of ASCII letters |
| Levenshtein.DistanceMetric | src/string/levenshtein_distance.cpp:62-113 | symmetry, triangle inequality, and zero exactly for strings of the same length whose characters are equal or, without regard to case, the two cases of one ASCII letter |
| Ascii.ToUpperMeans | src/string/levenshtein_distance.cpp:95-104 | two characters have the same upper case exactly if they are equal or the two cases of one ASCII letter |
| Levenshtein.NextRow | src/string/levenshtein_distance.cpp:85-108 | one row of the table from the one before, in the arithmetic of the type T, without overflow |
| Levenshtein.Core_T | src/string/levenshtein_distance.cpp:62-113 | the two-row loop with swapped strings and swapped rows returns the distance; it refuses exactly non-empty strings with a length that is the largest value of T |
| Levenshtein.Core | src/string/levenshtein_distance.cpp:152-166 | the choice of T never lets the constraint fail below the range of size_t |
| Levenshtein.LevenshteinDistance | src/string/levenshtein_distance.cpp:197-203 | the public function returns the distance |
| SimplePattern.TestSimplePatternMatch | src/string/tools.cpp:1080-1221 | terminates, and computes the greedy search that restarts behind the last wildcard |
| SimplePattern.Resolve | src/string/tools.cpp:1100-1133 | wildcards and escapes: "**", a trailing backslash and other escapes are refused where they are reached |
| SimplePattern.TestIs | src/string/tools.cpp:1145-1150 | exact condition: a well-formed pattern is reported to match if and only if it matches and, when it holds a wildcard "*" but does not end in one, no proper prefix of the string matches as well |
| SimplePattern.ExactPatterns | src/string/tools.cpp:1145-1150 | the function decides all strings correctly if and only if the pattern holds no "*" or ends in an unescaped one |
| SimplePattern.TestedPattern | src/string/tools.cpp:1048-1078 | what the two results mean for a well-formed pattern; without regard to case a pattern character fits itself and the other case of the same ASCII letter |
| SimplePattern.SpelledTokens | src/string/tools.cpp:1048-1078 | every sequence of characters, "?" and "*", without two "*" in a row, is what its spelling means, with a backslash in front of a literal "*", "?" or backslash |
| SimplePattern.StarFree | src/string/tools.cpp:1151-1160 | a pattern without "*" matches the strings of its length whose characters it holds one by one, where "?" stands for any |
| SimplePattern.Counterexample | src/string/tools.cpp:1145-1150 | pattern "*a" and string "aa": it matches, the function says no |
| ConditionalConcat.ConditionalConcat | src/string/tools.cpp:718-821 | the in-place compaction with two indices and a counter of empty strings computes the merge of the whole list |
| ConditionalConcat.ConcatLaws | src/string/tools.cpp:663-697 | the concatenation of all strings is preserved; only the last string may end and only the first may start with the glue character; a list of this form, empty strings included, stays as it is; doing it twice changes nothing |
| ConditionalConcat.EmptiesOfConcat | src/string/tools.cpp:672-697 | empty strings between two others, or behind the last one, survive just if no glue character touches them; otherwise they vanish, and the two others become one |
| ObjectDictionaries.ObjectDictionary.TryReadLock | src/osal/universal/RWLock.cpp:271-285 | fails if a writer holds or waits for the lock; throws at the largest count |
| ObjectDictionaries.ObjectDictionary.ReadLock | src/osal/universal/RWLock.cpp:311-324 | waits in the same cases |
| ObjectDictionaries.ObjectDictionary.WriteLock | src/osal/universal/RWLock.cpp:122-149 | waits while there is any lock; a waiting writer is counted once, and refused at the largest count; the first one that finds no lock gets it |
| ObjectDictionaries.ObjectDictionary.Add | src/cood/ObjectDictionary.cpp:93-105 | only while nobody holds a read-lock; an index in use is refused and changes nothing |
| ObjectDictionaries.ObjectDictionary.Remove | src/cood/ObjectDictionary.cpp:108-126 | only while nobody holds a read-lock; the object is deleted, an unknown index is no error |
| ObjectDictionaries.ObjectDictionary.Clear | src/cood/ObjectDictionary.cpp:72-90 | only while nobody holds a read-lock; all objects are deleted |
| ObjectDictionaries.ObjectDictionary.IncReadLock | src/cood/ObjectDictionary.cpp:213-217 | a further read-lock is granted exactly if no writer holds or waits for the lock and the count is not at its limit |
| ObjectDictionaries.ObjectDictionary.GetLocked | src/cood/ObjectDictionary.cpp:159-190 | the second step of a look-up, with a read-lock held and other threads in between: it succeeds exactly if nothing is found or a further read-lock is granted, so a writer that has been blocked in the meantime makes it fail; the read-lock is given up in any case |
| ObjectDictionaries.ObjectDictionary.Get | src/cood/ObjectDictionary.cpp:159-190 | both steps with nobody in between: it waits exactly while a writer waits; the pointer holds one read-lock |
| ObjectDictionaries.ObjectDictionary.GetFirstObject | src/cood/ObjectDictionary.cpp:159-165 | a pointer to the object with the least index, or to nothing if there is no object; waits exactly while a writer waits |
| ObjectDictionaries.ObjectDictionary.GetObject | src/cood/ObjectDictionary.cpp:168-174 | a pointer to the object with this index, or to nothing; waits exactly while a writer waits |
| ObjectDictionaries.ObjectDictionary.GetNextNearestObject | src/cood/ObjectDictionary.cpp:177-190 | a pointer to the object with the least index that is not less than the argument, or to nothing if there is none; waits exactly while a writer waits |
| ObjectDictionaries.ObjectPtr.CopyConstruct | src/cood/ObjectPtr.cpp:53-59 | a copy of a pointer to something is refused exactly if a writer waits for the dictionary, or the count of locks is at its limit; else it holds a read-lock of its own; if refused, it points to nothing |
| ObjectDictionaries.ObjectPtr.Assign | src/cood/ObjectPtr.cpp:130-174 | refused exactly if the source points into another dictionary (or this pointer to nothing) and a writer waits there, or its count of locks is at its limit; else equal to the source; read-locks of both dictionaries follow; assignment to itself does nothing |
| ObjectDictionaries.CopyWhileWriterWaits | src/cood/ObjectPtr.cpp:53-59 | the refused copy, reached from an empty dictionary: a pointer is held, Add waits, the copy fails |
| ObjectDictionaries.ObjectPtr.MoveAssign | src/cood/ObjectPtr.cpp:202-226 | the read-lock goes over; the source points to nothing |
| ObjectDictionaries.ObjectPtr.Increment | src/cood/ObjectPtr.cpp:258-273 | the next object by index, or nothing behind the last one, with the lock released; a pointer to nothing is refused |
| ObjectDictionaries.ObjectPtr.Reset | src/cood/ObjectPtr.cpp:331-338 | points to nothing, lock released |
| ObjectDictionaries.ObjectPtr.Deref | include/gpcc/cood/ObjectPtr.hpp:110-145 | a pointer to something refers to an object that is registered and not deleted |
| DictionaryRuns.LocksAreHeld | src/cood/ObjectPtr.cpp:53-382 | in every consistent world, the read-locks of a dictionary are the non-null pointers into it plus the other read-lockers |
| DictionaryRuns.PointerBlocksWriters | src/cood/ObjectDictionary.cpp:72-126 | while a non-null pointer exists, its dictionary is locked for writers |
| DictionaryRuns.ChangeStep | src/cood/ObjectDictionary.cpp:72-126 | registration and removal have their effect and outcome; a change of the set of indices implies that no pointer into the dictionary and no other read-lock exists |
| DictionaryRuns.EffectSound | src/cood/ObjectPtr.cpp:53-382 | in a world without counters, where the locks of a dictionary are just the pointers into it and the other read-locks, no operation leaves a pointer to an object that is no longer registered |
| DictionaryRuns.LocksKeepDictionary | src/cood/ObjectDictionary.cpp:72-126 | over any run: as long as there is a pointer into a dictionary, or another read-lock, its set of indices stays as it is |
| DictionaryRuns.Perform | src/cood/ObjectPtr.cpp:53-382 | any run of copies, moves, increments, resets, steps of look-ups, locks and changes, on any number of dictionaries and pointers, has the same outcomes and the same effect as in the world without counters; the counters are the pointers plus the other read-locks |
| DictionaryWalk.WalkIs | src/cood/ObjectDictionary.cpp:159-190 | the indices visited from k on are all indices of the dictionary from k on, in increasing order |
| DictionaryWalk.Visits | src/cood/ObjectPtr.cpp:258-273 | a look-up of the first object and n increments succeed when no writer waits, put the pointer at the n-th object by index and change no dictionary |
| DictionaryWalk.VisitsAll | src/cood/ObjectPtr.cpp:258-273 | enumeration with one pointer visits every object once, by index, and then points to nothing |
| TimePoints.NormalizeTimespec | src/time/TimePoint.cpp:639-670 | the normalised time with the same number of nanoseconds; overflow exactly if there is none; what an exception leaves behind is normalised |
| TimePoints.TimePoint.Set | src/time/TimePoint.cpp:570-575 | the exact time, or unchanged if it is not representable |
| TimePoints.TimePoint.Plus | src/time/TimePoint.cpp:203-218 | the exact normalised sum; overflow exactly if it is not representable |
| TimePoints.TimePoint.Minus | src/time/TimePoint.cpp:241-256 | the exact normalised difference; overflow exactly if it is not representable |
| TimePoints.TimePoint.AddAssign | src/time/TimePoint.cpp:318-336 | the same in place; an overflow changes nothing |
| TimePoints.TimePoint.SubAssign | src/time/TimePoint.cpp:361-379 | the same in place; an overflow changes nothing |
| TimePoints.TimePoint.Difference | src/time/TimePoint.cpp:279-293 | a returned difference is exact and fits 64 bits; one is returned exactly if the seconds differ by at most 9223372035 |
| TimePoints.TimePoint.Compare | src/time/TimePoint.cpp:400-523 | the six comparisons order by total nanoseconds |
| TimePoints.Roundtrip | src/time/TimePoint.cpp:203-293 | b + (a - b) is a whenever a - b is returned |
| TimePoints.ThereAndBack | src/time/TimePoint.cpp:318-379 | adding a span and subtracting it again leads back whenever the sum exists |
| BitFields.BitField.SetBit | src/container/BitField.cpp:766-772 | sets one element of the sequence; out of range is refused |
| BitFields.BitField.ClearBit | src/container/BitField.cpp:737-743 | clears one element; out of range is refused |
| BitFields.BitField.WriteBit | src/container/BitField.cpp:799-805 | writes one element |
| BitFields.BitField.GetBit | src/container/BitField.cpp:832-838 | reads one element |
| BitFields.BitField.ClearAll | src/container/BitField.cpp:619-623 | all false |
| BitFields.BitField.SetAll | src/container/BitField.cpp:639-643 | all true |
| BitFields.BitField.Resize | src/container/BitField.cpp:549-603 | the sequence is cut off or filled up with false, although the spare bits of the last word are undefined |
| BitFields.BitField.Assign | src/container/BitField.cpp:678-714 | the sequence of the first n bits of the data; errors change nothing |
| BitFields.BitField.Equals | src/container/BitField.cpp:401-437 | equality of the sequences, in spite of undefined spare bits |
| BitFields.BitField.FindFirstSetBit | src/container/BitField.cpp:862-899 | the word-wise search equals the linear scan upwards for true |
| BitFields.BitField.FindFirstClearedBit | src/container/BitField.cpp:923-960 | the word-wise search equals the linear scan upwards for false |
| BitFields.BitField.FindFirstSetBitReverse | src/container/BitField.cpp:985-1025 | the word-wise search equals the linear scan downwards for true |
| BitFields.BitField.FindFirstClearedBitReverse | src/container/BitField.cpp:1050-1090 | the word-wise search equals the linear scan downwards for false |
| BitFields.BitField.EnumerateBitsCompressed | src/container/BitField.cpp:1193-1241 | lists exactly the maximal runs, in increasing order |
| BitFields.Perform | src/container/BitField.cpp:549-805 | any run of writes, ClearAll, SetAll, Resize and Assign acts as on a sequence of booleans |
| BitFields.ScanUpMeans | src/container/BitField.cpp:862-960 | the linear scan finds the least index from the start on, or says that there is none |
| BitFields.ScanDownMeans | src/container/BitField.cpp:985-1090 | the linear scan finds the greatest index up to the start, or says that there is none |
| Md5.OptimisedF | src/hash/md5.cpp:239-242 | the optimised F is that of section 3.4 of RFC 1321 |
| Md5.OptimisedG | src/hash/md5.cpp:244-247 | the optimised G is that of section 3.4 of RFC 1321 |
| Md5.RotationIsShift | src/hash/md5.cpp:418-422 | the two shifts and the or are the circular shift |
| Md5.RotatedOperation | src/hash/md5.cpp:409-431 | one operation on fixed registers followed by rotating them is the operation of RFC 1321 on rotating roles |
| Md5.ProcessBlock | src/hash/md5.cpp:404-463 | the four rounds and the final additions are the 64 operations of RFC 1321 on one block |
| Md5Spec.PaddedSize | src/hash/md5.cpp:342-391 | the padding is the shortest one of at least one bit that makes the length 448 modulo 512 bits |
| Md5Sums.FillBlock | src/hash/md5.cpp:284-402 | each pass of the state machine fills the block with the next 64 bytes of the padded message, for every length |
| Md5Sums.LengthByte | src/hash/md5.cpp:370-381 | masking and shifting yield the bytes of the 64-bit length |
| Md5Sums.MD5Sum | src/hash/md5.cpp:224-476 | the digest of RFC 1321; null pointers with data and unaligned data are refused |
| Md5KnownAnswer.Alphabet | src/hash/md5.cpp:224-476 | the digest of the lower-case alphabet is the one in section A.5 of RFC 1321 |
| Md5KnownAnswer.WordOrder2 | src/hash/md5.cpp:126-145 | the words of the block in the order of round 2 of RFC 1321 |
| Md5KnownAnswer.WordOrder3 | src/hash/md5.cpp:147-166 | the words of the block in the order of round 3 of RFC 1321 |
| Md5KnownAnswer.WordOrder4 | src/hash/md5.cpp:168-187 | the words of the block in the order of round 4 of RFC 1321 |
| CliEditor.Editor.ClearInputBuffer | src/cli/CLI.cpp:1105-1115 | input and screen are empty behind the line head |
| CliEditor.Editor.ReplaceInputBufferWithString | src/cli/CLI.cpp:1145-1159 | input (cut to the room there is) and screen show the string, cursor behind it |
| CliEditor.Editor.WriteLineComposed | src/cli/CLI.cpp:552-590 | the line appears above the bottom line; line head, input and cursor are on the bottom line as before |
| CliEditor.Editor.StartLine | src/cli/CLI.cpp:1423-1446 | line head shown, empty input; too long a line head is refused |
| CliEditor.Editor.OnBackspace | src/cli/CLI.cpp:1543-1570 | removes the character before the cursor, on screen too |
| CliEditor.Editor.OnDel | src/cli/CLI.cpp:1682-1692 | removes the character at the cursor, on screen too |
| CliEditor.Editor.OnMove | src/cli/CLI.cpp:1602-1680 | the cursor keys move the cursor within the input |
| CliEditor.Editor.OnNoCommand | src/cli/CLI.cpp:1700-1736 | inserts at the cursor what there is room for; the last of several characters is read again |
| CliEditor.Editor.OnArrowUp | src/cli/CLI.cpp:1622-1647 | older command, wrapping around |
| CliEditor.Editor.OnArrowDown | src/cli/CLI.cpp:1649-1666 | younger command, and behind the latest one the input of the user |
| CliEditor.Editor.OnTab | src/cli/CLI.cpp:1572-1600 | next suggestion, and behind the last one the input of the user |
| CliEditor.Editor.HandleKey | src/cli/CLI.cpp:1501-1752 | for every key: the new state of the editor, and the screen shows line head + input with the cursor at its place; the last column is never written |
| CliRuns.EnterLine | src/cli/CLI.cpp:1423-1754 | for any sequence of keys and lines of other threads: the editor ends in the state, with the outcome and behind the event that the keys alone determine, characters that are read again included; the screen shows the edited line; the last column is never written |
| CliRuns.TypedLine | src/cli/CLI.cpp:1501-1752 | characters typed behind the input, and Return: this is what is entered |
| CliRuns.TypeAndErase | src/cli/CLI.cpp:1543-1736 | typing a character and Backspace leave the editor as it was |
| CliRuns.TypedTogether | src/cli/CLI.cpp:1700-1736 | characters that arrive together end up together |
| CliRuns.UpAndDown | src/cli/CLI.cpp:1622-1666 | k times arrow-up and k times arrow-down bring the input back |
| CliRuns.TabToInput | src/cli/CLI.cpp:1572-1600 | Tab leads through the suggestions back to the input of the user |
| CliLaws.RunThen | src/cli/CLI.cpp:1501-1752 | a run of events is the run of its first part followed by the run of the rest |
| CliLaws.InsertedInFront | src/cli/CLI.cpp:1668-1680 | a, Pos1, b and Return enter b + a; with End behind Pos1 they enter a + b |
| CliLaws.InsertedInside | src/cli/CLI.cpp:1602-1620 | a, n times arrow-left, b and Return enter b inserted n characters in front of the end of a, or at its beginning if a is shorter; as many times arrow-right in between undo that |
| CliLaws.ErasedInside | src/cli/CLI.cpp:1682-1692 | a and n times arrow-left, then Del or Backspace, and Return: the character behind or in front of the cursor is missing, if there is one |
| CliLaws.TypedTooMuch | src/cli/CLI.cpp:1700-1736 | characters beyond the room there is are dropped |
| CliLaws.HistoryEntered | src/cli/CLI.cpp:1622-1666 | k times arrow-up, j times arrow-down and Return enter entry j behind the k-th latest one, cut to the room there is, and k goes round the history; with End and b in front of Return they enter the entry followed by b |
| CliLaws.OtherKeyEnds | src/cli/CLI.cpp:1501-1541 | any other key ends the iteration through history or suggestions, gives up the backup and then acts on the input that is shown; Return and incomplete sequences change nothing |
| CliLaws.TabShows | src/cli/CLI.cpp:1572-1600 | Tab for the n-th time: suggestion n, behind the last one the input of the user, and then the first one again |
| CliLists.AddToHistory | src/cli/CLI.cpp:1218-1242 | the entry becomes the latest one: an equal one is taken out, and else the oldest one if the depth is reached; no duplicates, within the depth |
| CliLists.InsertIntoSuggestionList | src/cli/CLI.cpp:1308-1323 | inserting into the truncated list |
| CliLists.BuildListOfSuggestions | src/cli/CLI.cpp:1262-1284 | the closest six of all commands, in a stable order |
| CliLists.SuggestionsAreClosest | src/cli/CLI.cpp:1262-1323 | the list has at most six entries; with the rest behind it, it is all commands with their distance without regard to case (at most 255), sorted, and in the order of registration where equally close |

## Left out

- Streams: GetReadPtr, copying and moving of stream objects, RemainingCapacity, signed integers and floats (they are the
  unsigned forms of the same size), and the refusal of a null pointer by the constructors. The memory of a reader is a
  value: aliasing with a writer is not modelled.
- StreamWriterBase.WriteUint: the unrolled pushes for one, two, four and eight bytes are one loop.
- StreamReaderBase.ReadUint: the unrolled pops are one loop.
- ObjectCodec.NativeDataToCANopenEncodedData: native integers are little-endian; the byte-swapping builds are not modelled.
- ObjectCodec.CANopenEncodedDataToNativeData: the branch for streams that do not know their remaining size is left out,
  because MemStreamReader knows it.
- ObjectRecords.CheckTable: the table is a sequence of entries; null pointers and the check of the mutex as an object
  are one flag.
- RecordTheorems.CompleteTransfer: disjoint native ranges are a precondition, because the constructor does not check
  them. Native bytes outside any subindex may change: without a pure read-only subindex the whole structure is replaced.
- ObjectRecords.ObjectRECORD.Write: a single write of a visible string whose stream supplies all characters stores them
  as they are; nothing is claimed about what stands behind a NUL in that case.
- Objects: names, metadata, VAR objects, data types without native representation (one value stands for all of them),
  strings from and to CANopen data.
- CRC: the published constant tables are not compared with the generated ones; the remainder of polynomial division is
  not used as a third definition. ReverseBits8 is the reversal of the bits, not the look-up in its table.
- Md5Sums.MD5Sum: little-endian machines only; zeroing the block afterwards is not modelled.
- Levenshtein and wildcard matcher: toupper for ASCII characters only.
- SimplePattern.TestSimplePatternMatch: strings are null-terminated, that is, without NUL characters inside.
- BitFields.BitField.EnumerateBitsCompressed: the runs are a list; joining them to a text, and EnumerateBits, are left out.
- BitField: copying, moving and BitProxy.
- ObjectDictionaries.ObjectDictionary.Add: allocation failure is left out. Every operation is one step, except for the
  look-ups, which are two; a thread that has to wait gets the result Waiting and calls again. The destructor is not
  modelled.
- ObjectDictionaries.ObjectDictionary.WriteLock: that a blocked writer wakes up is not modelled.
- ObjectDictionaries.ObjectPtr.Assign: post-increment is copy construction and increment.
- TimePoint: system clocks and text. TimeSpan arithmetic.
- CliEditor.Editor.HandleKey: keys are abstract; the parser of terminal input and the filter for the return key are not
  part of this model. Escape sequences are commands, not characters. A NoCommand event carries printable characters.
- CliEditor.Editor.WriteLineComposed: style control sequences, the one in front of the line feed included, are left out
  or count as text; allowRewriteLine and RewriteLine are left out.
- CLI: passwords, command execution, registering commands while a line is entered, thread cancellation, errors of the
  terminal.
- Threads, mutexes, allocation failure, panics.
- RAMBlock, Logger, Command, SharedString, StringComposer and the remaining string helpers would only add easy members.
