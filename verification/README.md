# Verified models of the engine's stateful components

This project models the components of the engine that keep the most delicate state, and proves what their
code promises. Nothing here runs the original program: each part restates the code in Dafny, with the same
branches, constants and error cases, and `dafny verify dfyconfig.toml` checks every proof.

| part | modules |
|---|---|
| packing attribute lists into bounded chunks and back | ChunkSource, ChunkLayout, ChunkPack, ChunkUnpack, ChunkReader, ChunkRoundTrip, ChunkFidelity, ChunkTransfer, ChunkBytes |
| framing of messages on the wire | AttrSlots, Wire |
| Russian numerals printed and parsed | NumeralText, NumeralPrinter, NumeralAgreement, NumeralGrammar, NumeralReader, NumeralRoundTrip, NumeralMixed |
| the other number printer and parser | ConvertorWords, ConvertorAgreement, NumberConvertor |
| index of names with dense ids, and its saved form | NameOrder, NameImage, NamePointers, NameRuns, NameSaver, NameIndex |
| arena of memory sectors | SectorList, MemoryAllocator |
| list of blocks that spills to a file | Blocks |
| multi-part values in a shared cache | CacheKeys, CacheStore, CacheProtocol, CacheReuse, Cache |
| pre-fork master and its children | ProcessTable, ProcessServer, ProcessProtocol, ChildServer |
| drawing without replacement | RandomBox |
| chained hash table | HashTable |
| bytes and bits | Bytes, Bits |

Code that changes state is modelled as methods with loops and classes, each proved against a specification
function or predicate; the theorems are then proved about the specifications. A few proofs hide function
bodies that they do not need (`hide`), which keeps them quick.

## Where the code does not keep its promise

The model follows the code. Where a promise fails, the members named in the table below say under which
condition it holds and what happens otherwise.

- An integer element too long for one chunk is cut with a NUL behind its value that the reader does not
  expect (csDataPack.cpp:577 and 1139), so its name arrives empty.
- A Multiple chunk of 4096 elements has the count 0 in its twelve-bit field, so unpacking fails. This
  needs a chunk limit of at least 25090; the default is 4096.
- The recorded length of a string in a Single chunk is two too long (csDataPack.cpp:942).
- The last part of a cut element exceeds the chunk limit, by at most two bytes, exactly when the element fills
  all its parts, or all but one byte of them.
- An attribute without a name is dropped on the wire when the list is sent unpacked (csdata.c:120 and 134);
  packed, it arrives with an empty name.
- Names with NULs are compared only up to the first one (NameIndex.cpp:604-635), so two names can get one id.
- The bounds tests of the in-place search compare `!strncmp(...)` with 0 and never hold
  (NameIndex.cpp:732 and 737): a name before all others of its hash is placed one too far, but presence comes
  out right.
- NameIndex.hpp:85-92 says that Load copies all data, so that later changes of the buffer do not matter. The
  loaded names are pointers into the buffer (NameIndex.cpp:205): a later write changes a name exactly when it
  changes one of its bytes, and the name then no longer has the hash under which it is found.
- Adding an empty block to a Blocks container fails after resident blocks were dropped or written out; until the
  next block is added, nothing can be read.
- Two inserts of the same key by one process in one second share their part keys. A reader can then get a
  mix, or copy behind its buffer (CacheMemcached.cpp:216 and 244), exactly when the values differ in a part
  that both have, and also in size or in a second such part.
- The words for a number below a thousand are documented to reach 999; nine hundred, ninety and nineteen in a
  row are read as 1009.
- The part loop of InsertData overflows 32 bits for sizes above 4294000000.
- The index of a Blocks container adds sizes in 32 bits: a block that starts at 4 GiB or later is read from the
  wrong place when it is asked for.
- A restart of the children replaces the status pipe: the master's flag of an older child never changes again,
  and such a child leaves after one more client because its message cannot be written.
- A pid that is used again can meet a status message of the buried child that had it before: the master then
  takes the new child for busy until its first client.
- Searching a hash table uses the null head of a bucket without elements (RawHashTable.cpp:215).
- A failed fork is counted as a child for good: the pool loses a place, and a terminating master never ends.
- A child counts every pass of its loop as a request, also the idle ones (ap-server.c:205).
- s2i refuses the word for zero, which i2s prints.
- A load of a random box that is cut short leaves the new size with the old queue. The box is sound then iff
  no number of it is at or above the new size and no set bit lies between the old size and the new one.

## Model

| member | source | states |
|---|---|---|
| ChunkTransfer.Request | ext/clientlib/ClientLib/csDataPack.cpp:335-1182 | from the caller's buffers to the receiver's elements: packed, every element comes back as a string or an integer as it was, its name and text those of its buffers up to the recorded size or the first NUL, its number the same, exactly when no integer is cut and no chunk is overfull, for every chunk limit and pack flag; unpacked, exactly the attributes with a name arrive so, in order; the stream is left empty |
| ChunkSource.FilledOnce | ext/clientlib/ClientLib/csDataPack.cpp:108-144 | the buffers and recorded sizes determine name and value of every attribute that is packed |
| ChunkSource.VerifiedSame | ext/clientlib/ClientLib/csDataPack.cpp:108-144 | completing the sizes keeps what the buffers hold, and the sizes are then those of name and value |
| ChunkTransfer.Delivered | ext/clientlib/apcs/csdata.c:100-524 | whatever follows on the stream, the receiver decodes the packed message and stops at its end, and unpacks it under exactly the conditions of the round trip |
| ChunkTransfer.PlainDelivered | ext/clientlib/apcs/csdata.c:114-161 | unpacked, whatever follows on the stream, exactly the attributes with a name are delivered, and they are the list iff no name is missing |
| AttrSlots.NamedExactly | ext/clientlib/apcs/csdata.c:114-134 | leaving out the attributes without a name changes the list exactly when there are some |
| ChunkFidelity.RoundTripExactly | ext/clientlib/ClientLib/csDataPack.cpp:744-1182 | unpacking the packed list gives the same elements in order if and only if no integer had to be cut and no chunk took 4096 elements; an overfull chunk makes the unpacking fail as invalid |
| ChunkRoundTrip.PackUnpack | ext/clientlib/ClientLib/csDataPack.cpp:744-1182 | the reply to every packed list, element by element, including the names lost by cut integers and the recorded value lengths |
| ChunkRoundTrip.ChunksDelivered | ext/clientlib/ClientLib/csDataPack.cpp:886-1158 | from any point of the unpacking loop, the chunks of the elements left deliver those elements, whatever mix of Single, Multiple and cut chunks encodes them |
| ChunkRoundTrip.SingleRead | ext/clientlib/ClientLib/csDataPack.cpp:907-986 | a Single chunk is read as its element; a string's recorded length is two too long |
| ChunkRoundTrip.MultipleRead | ext/clientlib/ClientLib/csDataPack.cpp:988-1075 | a Multiple chunk is read as its elements with exact lengths, and as no element when it holds 4096 |
| ChunkRoundTrip.CutTaken | ext/clientlib/ClientLib/csDataPack.cpp:1077-1152 | the parts of a cut element are taken together and give the element, an integer without its name |
| ChunkRoundTrip.PartsJoin | ext/clientlib/ClientLib/csDataPack.cpp:1110-1116 | the payloads of the parts concatenate to link, value, NUL, name and NUL and the padding, with at most one byte behind for a string and two for an integer; the same holds from any part on |
| ChunkFidelity.ReceivedFaithful | ext/clientlib/ClientLib/csDataPack.cpp:886-1165 | the elements received are as many as were sent iff no pass is overfull, and equal to them iff also no integer is cut |
| ChunkFidelity.CutIntegerReceived | ext/clientlib/ClientLib/csDataPack.cpp:559-599 | an integer whose name makes it too long for a chunk arrives with its value and an empty name |
| ChunkFidelity.SmallLimitNeverOverfull | ext/clientlib/ClientLib/csDataPack.cpp:649-671 | a chunk limit below 25090 never lets 4096 elements into one chunk |
| ChunkFidelity.OverfullExample | ext/clientlib/ClientLib/csDataPack.cpp:652-662 | the bound is sharp: 4096 empty strings fill one chunk at the limit 25090 |
| ChunkTransfer.ChunkSizes | ext/clientlib/ClientLib/csDataPack.cpp:432-671 | no chunk is longer than the limit, except a last part of a cut element, by at most two bytes |
| ChunkTransfer.ExceedsExactly | ext/clientlib/ClientLib/csDataPack.cpp:432-671 | a packed list has a chunk over the limit iff one of its elements is cut and fills all its parts, or all but one byte of them |
| ChunkTransfer.LastPartSize | ext/clientlib/ClientLib/csDataPack.cpp:485-523 | the last part of a cut element is over the limit iff its size divided by the room of a part leaves no rest, or one byte less than the room |
| ChunkTransfer.TooLongExample | ext/clientlib/ClientLib/csDataPack.cpp:485-523 | a string of 24 bytes without a name, cut at the limit 16, ends in a part of 18 bytes |
| ChunkTransfer.PackedSendable | ext/clientlib/ClientLib/csDataPack.cpp:673-738 | every packed message has the names and sizes the wire format can carry |
| ChunkLayout.PartsBounds | ext/clientlib/ClientLib/csDataPack.cpp:485-523 | an element too long for a Single chunk takes at least two parts, all needed, the last one neither empty nor more than two bytes over the limit, with room for everything left |
| ChunkLayout.PartLength | ext/clientlib/ClientLib/csDataPack.cpp:493-523 | every part but the last is full and carries the next limit - 2 bytes |
| ChunkLayout.ChunkCount | ext/clientlib/ClientLib/csDataPack.cpp:432-671 | there are never more chunks than bytes of elements, so the chunk count fits its field |
| ChunkLayout.FitFits | ext/clientlib/ClientLib/csDataPack.cpp:437-457 | the group the size loop finds fits the limit, and one element more would not |
| ChunkSource.csVerifyStructure | ext/clientlib/ClientLib/csDataPack.cpp:108-144 | missing names and values become empty strings in place, and nothing else about an attribute changes |
| ChunkPack.csDataPack | ext/clientlib/ClientLib/csDataPack.cpp:335-739 | packed, the message announces the flags, the number of chunks and of elements, and its chunks encode what the caller's buffers hold, whatever the limit asked for; unpacked, the attributes of the buffers follow the flags with missing names still missing |
| ChunkPack.CreateChunkSingle | ext/clientlib/ClientLib/csDataPack.cpp:164-239 | the chunk has the single-chunk type word with the element's type bit, and the element behind it |
| ChunkPack.StoreElement | ext/clientlib/ClientLib/csDataPack.cpp:188-237 | the bytes of the element at the given offset, and nothing else in the buffer changed |
| ChunkPack.StorePass | ext/clientlib/ClientLib/csDataPack.cpp:281-329 | the type bit, the table entry and the element are stored, and no other byte changes |
| ChunkPack.CreateChunkMultiple | ext/clientlib/ClientLib/csDataPack.cpp:242-332 | whatever the buffer held before, every element has its type bit, its offset in the table and its bytes at that offset, on even positions |
| ChunkPack.PrefixGrows | ext/clientlib/ClientLib/csDataPack.cpp:280-329 | writing one more element, its bit and its offset leaves all earlier ones in place |
| ChunkPack.CutElement | ext/clientlib/ClientLib/csDataPack.cpp:483-634 | the chunks made by the cutting loop are exactly the parts of the element, with the type words of first, middle and last part |
| ChunkPack.CutPart | ext/clientlib/ClientLib/csDataPack.cpp:493-634 | from any state of the cutting loop, one part carries the next bytes of link, value, NUL, name and NUL, and the state says how far they reach |
| ChunkPack.CutPiece | ext/clientlib/ClientLib/csDataPack.cpp:559-634 | as much of the value or name as fits the part, with its terminator exactly when the rest fits |
| ChunkPack.StartPart | ext/clientlib/ClientLib/csDataPack.cpp:527-557 | the type word of the part, and the link only in the first part of a string |
| ChunkPack.PackAttrs | ext/clientlib/ClientLib/csDataPack.cpp:388-739 | an empty list and a packed one, encoded pass by pass |
| ChunkPack.ChunkLimit | ext/clientlib/ClientLib/csDataPack.cpp:34-42 | the limit is kept when it is between 16 and 65536, and set to the nearer end of that range otherwise |
| ChunkPack.CountFitting | ext/clientlib/ClientLib/csDataPack.cpp:434-457 | the loop counts the longest run of elements that fits, and the memory of its chunk |
| ChunkPack.PackStep | ext/clientlib/ClientLib/csDataPack.cpp:432-671 | one pass takes at least one element and makes the chunks the layout rules ask for |
| ChunkReader.csDataUnPack | ext/clientlib/ClientLib/csDataPack.cpp:744-1182 | the loops over chunks and parts compute the reply that the specification of the format gives for any message, well formed or not |
| ChunkUnpack.YieldsAnnounced | ext/clientlib/ClientLib/csDataPack.cpp:744-905 | whatever message arrives, elements come only out of one with its three announcements, exactly as many as announced and more than none, with C strings as names and values |
| Bytes.CStrExactly | ext/clientlib/ClientLib/csDataPack.cpp:907-986 | a name or value is read exactly if a NUL follows in the buffer, and reaches up to the first one |
| ChunkReader.ReadMultiple | ext/clientlib/ClientLib/csDataPack.cpp:988-1075 | the element loop fills the element array with the items of the chunk, or reports why it cannot |
| ChunkReader.ReadCut | ext/clientlib/ClientLib/csDataPack.cpp:1077-1152 | search, measuring and copying loops rejoin the parts of a cut element, or report why they cannot |
| ChunkReader.ReadItems | ext/clientlib/ClientLib/csDataPack.cpp:1000-1074 | the items of the chunk behind those already there, or failure |
| ChunkReader.ReadSingle | ext/clientlib/ClientLib/csDataPack.cpp:907-986 | the one item behind those already there, or the reason to stop |
| ChunkReader.SearchLast | ext/clientlib/ClientLib/csDataPack.cpp:1079-1086 | the first chunk with the last-part bit, and whether a broken chunk comes before it |
| ChunkReader.CheckParts | ext/clientlib/ClientLib/csDataPack.cpp:1088-1100 | whether all parts are chunks, and the size of what they carry |
| ChunkReader.CopyParts | ext/clientlib/ClientLib/csDataPack.cpp:1110-1116 | the concatenation of what the parts carry, filling the buffer exactly |
| ChunkReader.ReadNext | ext/clientlib/ClientLib/csDataPack.cpp:889-1157 | the chunk type decides which reading is done |
| ChunkReader.ReadChunks | ext/clientlib/ClientLib/csDataPack.cpp:886-1165 | all chunks are read, and the elements are as many as announced, or the message is invalid |
| Bits.PutBitIsBit | ext/clientlib/ClientLib/csDataPack.cpp:286-290 | setting or clearing one type bit changes that bit and no other |
| Bits.PowerBit | ext/clientlib/ClientLib/csDataPack.cpp:286-290 | bit i is the one of weight two to the i |
| ChunkBytes.SingleBytes | ext/clientlib/ClientLib/csDataPack.cpp:164-239 | the bytes of the chunk of a short string and of a small integer |
| ChunkBytes.MultipleBytes | ext/clientlib/ClientLib/csDataPack.cpp:242-332 | the bytes of the chunk that holds both: count, type bits, offsets and elements |
| ChunkBytes.PartWords | ext/clientlib/ClientLib/csDataPack.cpp:527-557 | the type words of the first, middle and last part of a cut element |
| ChunkBytes.LongBytes | ext/clientlib/ClientLib/csDataPack.cpp:559-634 | the bytes that are cut: a string with the link to its name in front, both with a NUL |
| ChunkBytes.AnnouncedBytes | ext/clientlib/ClientLib/csDataPack.cpp:673-738 | the attributes t, c and e stand before the chunks, each of which is named c |
| Wire.MessageBack | ext/clientlib/apcs/csdata.c:100-524 | decoding undoes encoding for every message, and consumes exactly its bytes, although the values contain NULs |
| Wire.NoPrefix | ext/clientlib/apcs/csdata.c:100-179 | no encoded message is a proper beginning of another one, so a stream of messages splits in one way |
| Wire.LeadingBytes | ext/clientlib/apcs/csdata.c:100-179 | every message begins with the marker, the magic number and the number of attributes, and ends with the end mark, byte by byte |
| Wire.FieldBytes | ext/clientlib/apcs/csdata.c:114-179 | the bytes of a short string, a small integer, a body and an empty body |
| Wire.Channel.SendData | ext/clientlib/apcs/csdata.c:100-179 | the calls of the sender append exactly the encoding of the message that has the attributes with a name |
| Wire.Channel.RecvData | ext/clientlib/apcs/csdata.c:438-524 | the reading calls consume and return what the decoder finds at the front of the stream, or fail with it |
| Wire.Channel.RecvAttrs | ext/clientlib/apcs/csdata.c:484-495 | the attribute loop reads as many attributes as announced, or fails where the decoder fails |
| Wire.Channel.SendAttr | ext/clientlib/apcs/csdata.c:134-159 | the type, length and value fields of one attribute are appended |
| Wire.Channel.SendAttrs | ext/clientlib/apcs/csdata.c:130-161 | the attributes with a name are appended in order, the others are skipped |
| Wire.Channel.CountNamed | ext/clientlib/apcs/csdata.c:117-126 | as many attributes are announced as will be sent |
| Wire.Channel.RecvAttr | ext/clientlib/apcs/csdata.c:225-354 | one attribute is read, a string or an integer by its type, or nothing is accepted |
| Wire.Channel.RecvBody | ext/clientlib/apcs/csdata.c:356-436 | the optional body is read, or nothing is accepted |
| Wire.AttrsBack | ext/clientlib/apcs/csdata.c:130-161 | any number of encoded attributes decode to themselves, whatever follows |
| NumeralRoundTrip.IntegerRoundTrip | src/NanoLib/NumberParser.cpp:1151-1239 | for every digit string of one to 27 digits, leading zeros included, the parser reads the printed numeral as the printed value |
| NumeralRoundTrip.DecimalRoundTrip | src/NanoLib/NumberParser.cpp:1187-1231 | for every number with one to 27 integral and one to eleven fractional digits, the parser reads the printed numeral as exactly that value |
| NumeralRoundTrip.SignedInteger | src/NanoLib/KeyboardNumberParser.cpp:785-827 | every printed integer behind a sign word of any form, or behind an attached sign, is parsed as its value, negative exactly behind a minus |
| NumeralRoundTrip.SignedDecimal | src/NanoLib/KeyboardNumberParser.cpp:785-827 | the same for every printed decimal |
| NumeralAgreement.PrintedAgrees | src/NanoLib/NumberParser.cpp:1085-1231 | in every text printed for a number, a base word has the form for one, for two to four or for the rest exactly as the word before it is a one, a two to four or neither; a one or a two is feminine exactly in front of thousands, of the word for the integral part and of a fraction; and these two are singular exactly behind a one |
| NumeralAgreement.LongerCopied | src/NanoLib/NumberParser.cpp:1183-1187 | a number of more than 27 integral or eleven fractional digits is copied |
| NumeralMixed.FormsIgnored | src/NanoLib/NumberParser.cpp:711-769 | a numeral is parsed alike in all forms of its words, those of twenty excepted |
| NumeralMixed.MixedExactly | src/NanoLib/KeyboardNumberParser.cpp:210-312 | digits in front of a base word and behind it are parsed as the number they stand for if both are below the base, and refused otherwise |
| NumeralMixed.PartAlone | src/NanoLib/KeyboardNumberParser.cpp:673-783 | a printed part alone is a fraction in front of the word for one, and a whole number in front of the word for the integral part |
| NumeralRoundTrip.TAt | src/NanoLib/KeyboardNumberParser.cpp:210-312 | on the words of up to nine groups, as many as there are bases for, the multiplier grammar reads their value, with the recursion on the groups that follow |
| NumeralRoundTrip.NAt | src/NanoLib/KeyboardNumberParser.cpp:615-671 | an integral numeral of up to 27 digits is read to its last word and gives the number of its digits |
| NumeralRoundTrip.SAt | src/NanoLib/KeyboardNumberParser.cpp:386-475 | hundreds, tens and units, some of them absent, are read as one number below a thousand |
| NumeralRoundTrip.FloatMains | src/NanoLib/NumberParser.cpp:711-769 | normalizing turns every case and gender form of a printed decimal into its main form and leaves the words otherwise alone |
| NumeralRoundTrip.JoinKept | src/NanoLib/NumberParser.cpp:771-815 | deleting spaces leaves the words of a printed numeral as they are |
| NumeralGrammar.T | src/NanoLib/KeyboardNumberParser.cpp:210-312 | success moves the position forward inside the text, and the value is a sum in which every multiplier and every rest is below its base, at every level |
| NumeralGrammar.N | src/NanoLib/KeyboardNumberParser.cpp:615-671 | the recursion ends, and success moves the position forward inside the text |
| NumeralGrammar.UF | src/NanoLib/KeyboardNumberParser.cpp:673-783 | success consumes the whole text and gives an unsigned value with a positive base |
| NumeralReader.ParseText | src/NanoLib/KeyboardNumberParser.cpp:829-880 | for every text, normalizing, deleting spaces and the parsing calls give what the grammar gives, or leave the text to the decimal reader |
| NumeralReader.ParseT | src/NanoLib/KeyboardNumberParser.cpp:210-312 | the backtracking calls over positions give the value and the end of the multiplier form, or fail with it |
| NumeralReader.ParseN | src/NanoLib/KeyboardNumberParser.cpp:615-671 | the calls give the integral number of the grammar, zero included |
| NumeralReader.ParseS | src/NanoLib/KeyboardNumberParser.cpp:386-475 | the three word scans add up what the tables hold and stop behind the last word found |
| NumeralGrammar.SF | src/NanoLib/KeyboardNumberParser.cpp:785-827 | success consumes the whole text and gives a value with a positive base |
| NumeralGrammar.S | src/NanoLib/KeyboardNumberParser.cpp:386-475 | success moves the position forward inside the text, and the number is between 1 and 1009 |
| NumeralGrammar.SmallExceeds | src/NanoLib/KeyboardNumberParser.cpp:386-475 | the number of the words below a thousand is above the 999 documented exactly when nine hundred, ninety and a word from ten on stand in a row |
| NumeralRoundTrip.OverThousand | src/NanoLib/KeyboardNumberParser.cpp:386-475 | nine hundred, ninety and nineteen in a row are read as 1009 |
| NumeralGrammar.KK | src/NanoLib/KeyboardNumberParser.cpp:551-576 | success moves the position forward inside the text |
| NumeralGrammar.K | src/NanoLib/KeyboardNumberParser.cpp:579-612 | success moves the position forward inside the text |
| NumeralGrammar.K3 | src/NanoLib/KeyboardNumberParser.cpp:478-504 | success moves the position forward inside the text |
| NumeralGrammar.R | src/NanoLib/KeyboardNumberParser.cpp:181-208 | success moves the position forward inside the text |
| NumeralGrammar.D2 | src/NanoLib/KeyboardNumberParser.cpp:133-163 | success leaves the position inside the text and gives a positive base |
| NumeralGrammar.NormalizeNumerals | src/NanoLib/NumberParser.cpp:711-769 | the scanning loop computes the normalized text of the specification, word by word |
| NumeralGrammar.DeleteSpaces | src/NanoLib/NumberParser.cpp:771-815 | exactly the spaces inside the text and before a word, but not between two digits, stay |
| NumeralReader.ReadDigits | src/NanoLib/KeyboardNumberParser.cpp:315-355 | the loop reads the value of the run of digits it passes |
| NumeralPrinter.NumberToString | src/NanoLib/NumberParser.cpp:1151-1239 | rejects what is not a decimal, copies what is too long, faults on an empty side of the separator, and otherwise prints the words of both parts with their bases |
| NumeralPrinter.IntegralToString | src/NanoLib/NumberParser.cpp:1023-1149 | for every digit string the loop over positions appends the words of its three-digit groups, zero groups skipped, in the gender and case of their bases |
| NumeralPrinter.PrintGroup | src/NanoLib/NumberParser.cpp:1051-1143 | one pass prints one group, whichever of its digits are there |
| NumeralText.GroupsTotal | src/NanoLib/NumberParser.cpp:1043-1071 | the values of the groups, weighed by powers of a thousand, add up to the number |
| NumeralPrinter.GroupDigits | src/NanoLib/NumberParser.cpp:1056-1112 | hundreds, tens and the unit word read off the positions are those of the value of the group |
| NameOrder.LocatedUnique | src/NanoLib/NameIndex.cpp:529-645 | a sorted index has one answer for a name: its only position, or the only one that keeps the order |
| NameOrder.StrNCmpIsLess | src/NanoLib/NameIndex.cpp:597-644 | among names of one hash, strncmp over the searched length is the order of whole names, up to a NUL, even for over-long search names |
| NameOrder.KeyIsName | src/NanoLib/NameIndex.cpp:529-645 | names are the same entry iff they agree in length, up to the first NUL and in the exclusive or of all bytes, so a name without NUL is never the same entry as another name, with NULs or without |
| NameIndex.NulNames | src/NanoLib/NameIndex.cpp:604-635 | the names [0, 1, 2] and [0, 2, 1] get one id, and it gives the first of them |
| NameOrder.LessTransitive | src/NanoLib/NameIndex.cpp:529-645 | hash and name bytes order the names transitively |
| NameOrder.LessTotal | src/NanoLib/NameIndex.cpp:529-645 | any two keys are equal or ordered in exactly one way |
| NameOrder.ComputeHash | src/NanoLib/NameIndex.cpp:510-527 | the loop computes the length in 24 bits and the exclusive or of all bytes |
| NameOrder.HashBits | src/NanoLib/NameIndex.cpp:510-527 | each of the low eight bits of a hash tells whether an odd number of bytes of the name have that bit, and the rest is the length |
| NameOrder.ShorterFirst | src/NanoLib/NameIndex.cpp:510-527 | a shorter name comes before a longer one, whatever their bytes |
| NameOrder.OneLength | src/NanoLib/NameIndex.cpp:529-645 | names of one length are ordered by the exclusive or of their bytes, and then by the first byte that differs |
| NameOrder.CompareFirst | src/NanoLib/NameIndex.cpp:597-644 | in strncmp the first byte that differs decides, the smaller one coming first, and a beginning comes before the whole |
| NameOrder.XorIsXor | src/NanoLib/NameIndex.cpp:521-521 | the exclusive or of the hash is that of each bit |
| NameIndex.NameIndex.SearchRW | src/NanoLib/NameIndex.cpp:529-645 | tells whether the name is in the index, and its position, or the unique position that keeps the index sorted |
| NameIndex.NameIndex.SearchRO | src/NanoLib/NameIndex.cpp:647-763 | on a saved index, tells whether the name is there, and its position; a missing name is placed one too far exactly when it precedes all names of its hash, because the bounds tests never hold |
| NameIndex.PlacedTooFar | src/NanoLib/NameIndex.cpp:729-740 | with [2, 1] in the index, the missing [1, 2] is placed at 0 in memory and at 1 in place |
| NameIndex.NameIndex.AddName | src/NanoLib/NameIndex.cpp:351-434 | the error cases exactly; a known name gives its id and changes nothing; a new name gets the next id, both indexes stay sorted and inverse, and the needed memory stays that of the image |
| NameIndex.InsertMatched | src/NanoLib/NameIndex.cpp:398-416 | inserting at the found position keeps the forward index sorted and the reverse index its inverse |
| NameIndex.InsertTotal | src/NanoLib/NameIndex.cpp:361-363 | below the limit the needed memory of the extended index is counted exactly and fits 32 bits |
| NameRuns.RunIds | src/NanoLib/NameIndex.cpp:351-434 | after any run of additions the new names have the ids 0, 1, 2 and so on in the order in which they first came, and no others exist |
| NameRuns.RunGrows | src/NanoLib/NameIndex.cpp:351-434 | further additions never change the id or the name of an entry |
| NameRuns.RunContains | src/NanoLib/NameIndex.cpp:351-434 | a name is in the index after a run iff a name with its key was added |
| NameIndex.NameIndex.Save | src/NanoLib/NameIndex.cpp:226-311 | exactly the needed number of bytes is used, and apart from padding they are the image of the index |
| NameSaver.SaveIndex | src/NanoLib/NameIndex.cpp:234-302 | the loop writes header, forward index, reverse index and records, none over another, and nothing behind the image |
| NameSaver.ElementKept | src/NanoLib/NameIndex.cpp:270-297 | writing an element leaves the bytes of all earlier elements alone |
| NameSaver.Apart | src/NanoLib/NameIndex.cpp:256-297 | two elements never share a byte of the image |
| NameImage.SavedReads | src/NanoLib/NameIndex.hpp:231-267 | read through the accessors, the image gives back every entry by position and every name by id, and both sizes, the next id and the digest state |
| NameImage.ImageBytes | src/NanoLib/NameIndex.cpp:226-311 | the image of the index of one name, byte by byte except for the padding |
| NameImage.SameImage | src/NanoLib/NameIndex.cpp:226-311 | two images of one index agree on every byte that is not padding, so loading and saving again reproduces the image |
| NameImage.TotalInserted | src/NanoLib/NameIndex.cpp:418-420 | the bookkeeping of the needed memory, one name at a time, is the size of the image |
| NameIndex.SavedOpens | src/NanoLib/NameIndex.cpp:88-224 | a saved index passes the checks of Open and Load and shows the saved indexes |
| NameIndex.NameIndex.Open | src/NanoLib/NameIndex.cpp:88-136 | succeeds iff the sizes at both ends are possible and agree; a refused frame changes nothing, a wrong trailer closes the index |
| NameIndex.NameIndex.Load | src/NanoLib/NameIndex.cpp:138-224 | a loaded index has the forward and reverse index that the buffer shows, and can be written again |
| NamePointers.LoadPointers | src/NanoLib/NameIndex.cpp:197-211 | the loop over the records fills names that point into the buffer, and at first show the entries of the saved index |
| NamePointers.Overwrite | src/NanoLib/NameIndex.cpp:205-205 | after a byte of the buffer is written, a loaded name has changed iff the byte belongs to it and the value is another one |
| NamePointers.Misfiled | src/NanoLib/NameIndex.cpp:474-508 | an entry whose name was changed in the buffer is not found under the name that GetName gives for it, and still under the old one exactly if the changed byte lies behind a NUL |
| NamePointers.CoversOnce | src/NanoLib/NameIndex.cpp:256-297 | in a saved image no byte belongs to two names, and none in front of the records to any |
| NamePointers.LoadedAt | src/NanoLib/NameIndex.cpp:197-206 | the pointers lead to the records of the image |
| NamePointers.HashChanges | src/NanoLib/NameIndex.cpp:203-206 | a changed name no longer has the hash that was loaded for it |
| NameIndex.NameIndex.Search | src/NanoLib/NameIndex.cpp:436-472 | the id of a known name in both modes, and none for an unknown one |
| NameIndex.NameIndex.GetName | src/NanoLib/NameIndex.cpp:474-508 | the name and length of every id in both modes, and none beyond the last id |
| NameIndex.SaveAndReopen | src/NanoLib/NameIndex.cpp:88-311 | a saved index opened in place or loaded shows the same forward and reverse index, and saving the loaded one gives the same bytes outside the padding |
| NameIndex.BothModes | src/NanoLib/NameIndex.cpp:436-508 | the index in memory and its image opened in place answer every name and every id alike |
| NameIndex.KnownUnique | src/NanoLib/NameIndex.cpp:436-472 | a name has one id |
| NameIndex.NameIndex.Create | src/NanoLib/NameIndex.cpp:73-86 | an empty index in read-write mode that needs the memory of an empty image |
| MemoryAllocator.MemoryAllocator.Allocate | src/NanoLib/nMemoryAllocator.cpp:68-198 | the block the specification grants, at least as large as asked for; all earlier blocks keep their place, no sector is lost, and a refusal changes nothing |
| SectorList.HeldKept | src/NanoLib/nMemoryAllocator.cpp:185-197 | the blocks given out since the last reset lie in the used parts of the sectors up to the current one and never overlap, also after a new one |
| SectorList.GivenGood | src/NanoLib/nMemoryAllocator.cpp:75-182 | the total size stays below the limit of size_t and the sectors up to the current one stay where they are |
| SectorList.MovedSame | src/NanoLib/nMemoryAllocator.cpp:134-143 | moving a reused sector behind the current one loses no sector and repeats none |
| SectorList.TotalMoved | src/NanoLib/nMemoryAllocator.cpp:134-143 | moving a sector leaves the total size as it is |
| SectorList.Replay | src/NanoLib/nMemoryAllocator.cpp:68-210 | after a reset, the same requests get the same blocks of the same sectors without any new memory |
| SectorList.DeniedExactly | src/NanoLib/nMemoryAllocator.cpp:68-183 | a request is refused exactly if it is empty or too large, or no sector from the current one on has room and there is no memory for another one or it would reach the limit |
| SectorList.StepSaves | src/NanoLib/nMemoryAllocator.cpp:151-197 | a request without room gets a sector of the memory step if it fits one, and all further requests that fit the step together with it are granted without memory |
| SectorList.FirstSaves | src/NanoLib/nMemoryAllocator.cpp:77-110 | the same for the first sector |
| SectorList.FitTogether | src/NanoLib/nMemoryAllocator.cpp:185-197 | requests that together fit the current sector are granted in it, one behind the other, whatever malloc says |
| MemoryAllocator.Relink | src/NanoLib/nMemoryAllocator.cpp:134-143 | three writes to the links turn the list into the one with the found sector behind the current one; it stays acyclic |
| MemoryAllocator.Insert | src/NanoLib/nMemoryAllocator.cpp:174-176 | a new sector is linked in behind the current one; the list stays acyclic |
| MemoryAllocator.MemoryAllocator.FindFit | src/NanoLib/nMemoryAllocator.cpp:113-129 | the walk over the list stops at the first sector behind the current one that can hold the block |
| MemoryAllocator.MemoryAllocator.TakeSector | src/NanoLib/nMemoryAllocator.cpp:77-183 | whether a sector is reused, obtained or refused, and the list afterwards |
| MemoryAllocator.MemoryAllocator.MakeRoom | src/NanoLib/nMemoryAllocator.cpp:75-183 | afterwards the current sector has room for the block, or none can have, and then nothing changed |
| MemoryAllocator.MemoryAllocator.Obtain | src/NanoLib/nMemoryAllocator.cpp:151-182 | a new sector of the size the steps ask for, refused exactly at the limit or when malloc fails |
| MemoryAllocator.MemoryAllocator.SetMemoryStep | src/NanoLib/nMemoryAllocator.cpp:62-66 | the step changes only to a size that leaves room for a payload |
| MemoryAllocator.MemoryAllocator.constructor | src/NanoLib/nMemoryAllocator.cpp:41-60 | an empty list with the sector sizes asked for where they are usable, and the defaults otherwise |
| MemoryAllocator.MemoryAllocator.Reset | src/NanoLib/nMemoryAllocator.cpp:200-210 | all blocks are given back, the sectors and their order stay |
| MemoryAllocator.MemoryAllocator.Free | src/NanoLib/nMemoryAllocator.cpp:212-230 | every sector obtained is freed once, and none twice |
| Blocks.Blocks.Data | src/NanoLib/Blocks.cpp:90-98 | the bytes of the n-th added block, in memory or from the file, unless an empty block was just refused at the cost of the resident ones |
| Blocks.Blocks.DataSize | src/NanoLib/Blocks.cpp:73-85 | the size of the n-th added block under the same condition, otherwise 0 |
| Blocks.Blocks.Add | src/NanoLib/Blocks.cpp:21-66 | the block joins the list, and the resident bytes stay within the threshold or belong to one block; it joins the resident blocks without touching the file when they were added for writing and stay below the threshold; an empty block is refused, and leaves the container blind exactly when it was, or when blocks were loaded for reading or filled the threshold |
| Blocks.Blocks.Load | src/NanoLib/Blocks.cpp:157-223 | the resident blocks are then the asked one and as many following ones as the threshold allows, at least one |
| Blocks.Blocks.FindLast | src/NanoLib/Blocks.cpp:189-195 | the loop and its correction stop at the longest run within the threshold, or at one block |
| Blocks.Blocks.Dump | src/NanoLib/Blocks.cpp:123-155 | the resident blocks go to the end of the file in order |
| Blocks.Blocks.Spill | src/NanoLib/Blocks.cpp:123-155 | the file then holds the concatenation of all blocks, and nothing is resident |
| Blocks.Blocks.Clear | src/NanoLib/Blocks.cpp:100-121 | an empty container with an empty file |
| Blocks.BlockAt | src/NanoLib/Blocks.cpp:197-218 | the index cuts each block out of the concatenation of all blocks |
| Blocks.SeekExactly | src/NanoLib/Blocks.cpp:48-50 | with the index added up in 32 bits, lengths stay right for any total, and the place to read a block from is right iff the block starts below 4 GiB |
| Blocks.ReadRight | src/NanoLib/Blocks.cpp:197-218 | a block that starts below 4 GiB is read back from the file by the index as it was added, whatever the total size |
| Blocks.ReadWrong | src/NanoLib/Blocks.cpp:197-218 | behind two blocks of 2 GiB of zeros, the block [7] is read from the file as [0] |
| Blocks.EmptyBlockBlinds | src/NanoLib/Blocks.cpp:21-66 | an empty block added to a full container makes the block before it unreadable until another block is added |
| CacheProtocol.CompleteReads | src/NanoLib/CacheMemcached.cpp:56-280 | in every run of writers, readers, crashes, deletions and evictions at single gets and sets, with a fresh base key for each insert, a reader that succeeds has the whole data of one published insert of its key, and no reader sees corrupt data or writes behind its buffer |
| CacheProtocol.InvKept | src/NanoLib/CacheMemcached.cpp:56-301 | every single step keeps the invariant: records are those of known inserts, and readers follow one of them |
| CacheProtocol.PartsInvisible | src/NanoLib/CacheMemcached.cpp:113-132 | a writer stopped before its control record leaves the answer for every key unchanged |
| CacheProtocol.PartsDisturbNobody | src/NanoLib/CacheMemcached.cpp:113-132 | nor does a part change how any reader ends that is already collecting parts |
| CacheProtocol.ControlPublishes | src/NanoLib/CacheMemcached.cpp:134-158 | the control record makes the whole data readable at once, and changes no other key |
| CacheReuse.ReuseHurtsExactly | src/NanoLib/CacheMemcached.cpp:97-280 | for any set of inserts, some run gives a reader corrupt data, a copy behind its buffer or a value that no insert of its key has, iff two of them share key, process and second, and differ in a common part and also in size or in a second common part |
| CacheReuse.PeacefulReads | src/NanoLib/CacheMemcached.cpp:97-280 | without such a pair no run hurts a reader, base keys reused or not |
| CacheReuse.ClashHurts | src/NanoLib/CacheMemcached.cpp:97-280 | with such a pair there is a run from the empty cache whose only reader is hurt |
| CacheReuse.LongerHurts | src/NanoLib/CacheMemcached.cpp:216-244 | with two values of different size that differ in a common part, there is a run whose only reader is hurt |
| CacheReuse.MixHurts | src/NanoLib/CacheMemcached.cpp:234-262 | with two values of one size that differ in two parts, there is a run whose only reader is hurt |
| CacheReuse.ClashExamples | src/NanoLib/CacheMemcached.cpp:97-111 | two values of 1000001 bytes clash, and so do one of 1000001 and one of 1000002; a second apart they do not |
| CacheStore.InsertAnswered | src/NanoLib/CacheMemcached.cpp:56-280 | an undisturbed insert is read back whole, whatever the store held |
| CacheStore.LoopStops | src/NanoLib/CacheMemcached.cpp:113-124 | in 32 bits the part loop stops behind the last part exactly for sizes up to 4294000000 |
| CacheStore.OnlyControl | src/NanoLib/CacheMemcached.cpp:303-318 | the control record of one key matters to no other key |
| CacheKeys.PartKeysDiffer | src/NanoLib/CacheMemcached.cpp:102-120 | different parts, or parts of different base keys, never share a key |
| CacheKeys.PartIsNotCtl | src/NanoLib/CacheMemcached.cpp:118-120 | a part never has the key of a control record |
| CacheKeys.BaseKeysDiffer | src/NanoLib/CacheMemcached.cpp:97-111 | base keys of different keys, processes or seconds differ |
| CacheKeys.DecInjective | src/NanoLib/CacheMemcached.cpp:106-119 | different numbers are printed differently |
| CacheKeys.DecNumber | src/NanoLib/CacheMemcached.cpp:106-119 | the digits printed for a number stand for it, the most significant first |
| CacheKeys.KeyBytes | src/NanoLib/CacheMemcached.cpp:97-119 | the control key, the base key and a part key of one insert, byte by byte |
| CacheStore.ControlBytes | src/NanoLib/CacheMemcached.cpp:134-158 | the control record of one insert of two parts, byte by byte; values of less than a million bytes are stored as they are |
| Cache.CacheMemcached.InsertData | src/NanoLib/CacheMemcached.cpp:56-159 | the error cases, and the store after all sets of a successful call |
| Cache.CacheMemcached.GetData | src/NanoLib/CacheMemcached.cpp:161-280 | the error cases, and for a good key the answer of the store; a fault is reported exactly for a value behind the buffer and for a control record without room for a base key |
| Cache.CacheMemcached.GetParts | src/NanoLib/CacheMemcached.cpp:234-279 | the loop over the parts gives what single gets of a reader give |
| Cache.CacheMemcached.DeleteData | src/NanoLib/CacheMemcached.cpp:282-301 | only the control record of the key is removed |
| Cache.DeleteAnswered | src/NanoLib/CacheMemcached.cpp:282-301 | a deleted key is not found, and every other key is answered as before |
| ProcessServer.Server.main_loop_pass | src/ap-process-server/ap-process-server.c:1342-1402 | one pass keeps the counts exact up to failed forks, never lets a counter go below zero, spawns exactly when a child is wanted, allowed and due, and changes the table as the events ask; with nothing left to start, it asks for one child exactly when a client waits and none is spare or forbidden, or when fewer are spare than configured and the table has room |
| ProcessServer.Server.quiet_passes | src/ap-process-server/ap-process-server.c:1372-1395 | in passes without events the spare children grow by one a pass, from the second one on, up to the number configured or to the limit of children, and never beyond, so that one pass more than that number is always enough |
| ProcessServer.Server.spawn_filter | src/ap-process-server/ap-process-server.c:1023-1106 | a permitted spawn finds a free slot; the first one is taken and the counters move, also when the fork failed |
| ProcessServer.Server.check_filter_statuses | src/ap-process-server/ap-process-server.c:1139-1211 | a message sets the flag of its child only, the spare count follows, and a waiting client asks for a child exactly when none is spare, wanted or forbidden |
| ProcessServer.Server.note_status | src/ap-process-server/ap-process-server.c:1179-1202 | the spare count stays the number of available children, whatever the message says |
| ProcessServer.Server.bury_child | src/ap-process-server/ap-process-server.c:1215-1283 | an exited child leaves its slot and the counts; an unknown process changes nothing |
| ProcessServer.Server.bury_childs | src/ap-process-server/ap-process-server.c:1223-1281 | all reported children leave, in turn |
| ProcessServer.Server.renew | src/ap-process-server/ap-process-server.c:1355-1375 | exited children leave before a wanted one is started in a free slot |
| ProcessServer.Server.constructor | src/ap-process-server/ap-process-server.c:975-990 | an empty table as large as the limit, and as many children to start as configured |
| ProcessServer.Checked | src/ap-process-server/ap-process-server.c:470-500 | every configuration read has the limit it asks for, if that is positive, and a positive one otherwise; start and spare number are kept, or cut down to the limit where they are larger |
| ProcessServer.Bounded | src/ap-process-server/ap-process-server.c:1317-1327 | a table that cannot grow bounds the new limit, and cuts the start and spare numbers down to it where they are larger |
| ProcessServer.Server.reread_config | src/ap-process-server/ap-process-server.c:1287-1332 | whatever the new limit, the table never gets smaller than it, and no child or count is lost |
| ProcessServer.Server.CountsExact | src/ap-process-server/ap-process-server.c:1023-1106 | the counters are the numbers of live and of available children iff no fork ever failed; once as many forks failed as children are allowed, none is started any more |
| ProcessServer.Server.main_loop_end | src/ap-process-server/ap-process-server.c:1342-1370 | whatever exited children are reported, pass after pass, the loop of a terminating server has ended iff all children were reported and no fork ever failed |
| ProcessTable.CountsUpdate | src/ap-process-server/ap-process-server.c:1094-1102 | a changed slot moves the counts of live and available children by its own difference |
| ProcessTable.NotedCounts | src/ap-process-server/ap-process-server.c:1179-1202 | a message sets the flag of its child, counts a client when it says TAKEN, and changes no other slot |
| ProcessProtocol.AvailabilityTracked | src/ap-process-server/ap-process-server.c:1139-1283 | in every run of master and children, with restarts, failed forks, failing writes and pids used again, replaying the pending messages of a running child over the master's flag gives its true availability, unless its pipe was replaced or it could not write, exactly if the last message pending under its pid when it was forked did not say TAKEN, or it has written since; with an empty pipe the flag itself is true under the same condition |
| ProcessProtocol.InvKept | src/ap-process-server/ap-process-server.c:1139-1283 | each fork, failed fork, accept, finish, exit, receipt, burial, table growth and restart keeps that, also with messages of buried children still in the pipe |
| ProcessProtocol.StaleIsReused | src/ap-process-server/ap-process-server.c:1139-1283 | a child whose pid was not used before never inherits a message |
| ProcessProtocol.ReuseMisleads | src/ap-process-server/ap-process-server.c:1139-1283 | a child takes a client and exits, its pid is used again, and with all messages received the master takes the new, free child for busy |
| ProcessProtocol.RestartForgets | src/ap-process-server/ap-process-server.c:1304-1308 | the flag left by a restart is true exactly for the children whose dropped messages would not have changed it, and the other way round for a child that inherited a pending message |
| ProcessProtocol.RestartFreezes | src/ap-process-server/ap-process-server.c:1304-1308 | the flag of a child forked before a restart never changes again, in every run, for as long as the child runs and so keeps its pid |
| ProcessProtocol.OldServesOne | ext/clientlib/apcs/ap-server.c:161-198 | a child forked before a restart takes at most one more client, because its message cannot be written, and none if it was serving one |
| ProcessProtocol.LoopRuns | ext/clientlib/apcs/ap-server.c:134-209 | the passes of the request loop are steps of the protocol, what the loop sends goes into the pipe in order, and a child marked as leaving has left its loop |
| ChildServer.cs_server_main | ext/clientlib/apcs/ap-server.c:109-209 | the loop returns, counts and writes to the pipe what its specification says for every sequence of events |
| ChildServer.GoingOn | ext/clientlib/apcs/ap-server.c:134-209 | a child that goes on has sent one TAKEN and one AVAIL for each client, in turn, and AVAIL last; every pass counts as a request |
| ChildServer.GoesOnExactly | ext/clientlib/apcs/ap-server.c:134-209 | a child goes on iff no pass had an error of select, a SIGHUP or a message that could not be written, and the passes are fewer than the limit, if there is one |
| ChildServer.EndsWith | ext/clientlib/apcs/ap-server.c:134-209 | the loop returns -1 iff the pass that ended it was an error of select, and 0 otherwise |
| ChildServer.Retires | ext/clientlib/apcs/ap-server.c:203-207 | at the limit of requests a child leaves its loop, even if no client ever came |
| ConvertorWords.ConvertorRoundTrip | src/NanoLib/NumberConvertor.cpp:241-679 | for every number below 10^15 in magnitude, s2i gives back the number from the words of i2s, and refuses exactly zero |
| ConvertorWords.WordsInjective | src/NanoLib/NumberConvertor.cpp:241-359 | different numbers have different words |
| ConvertorAgreement.WordsAgree | src/NanoLib/NumberConvertor.cpp:241-359 | in the words of every number, a scale word has the form for one, for two to four or for the rest exactly as the word before it is a one, a two to four or neither, and a one or a two is feminine exactly in front of thousands |
| ConvertorAgreement.AcceptedCounts | src/NanoLib/NumberConvertor.cpp:463-664 | no accepted word loses a digit: a number word adds what it stands for, and a scale word moves what was collected, or one, to its place |
| ConvertorAgreement.FreeAccepted | src/NanoLib/NumberConvertor.cpp:463-664 | a word of the table is refused exactly when a digit it needs is taken |
| ConvertorWords.PositiveTaken | src/NanoLib/NumberConvertor.cpp:463-679 | the words of the powers from any one down add the number to an empty part of the buffer |
| ConvertorWords.GroupTaken | src/NanoLib/NumberConvertor.cpp:463-664 | the words of one group fill its three digits and leave the low ones empty |
| NumberConvertor.int_i2s | src/NanoLib/NumberConvertor.cpp:241-359 | the loop over the powers gives the words of the number, looked up in the table |
| NumberConvertor.GroupToWords | src/NanoLib/NumberConvertor.cpp:275-355 | the words of one group below a thousand, with its scale word in the right case |
| NumberConvertor.NumberConvertor.s2i | src/NanoLib/NumberConvertor.cpp:443-679 | the digits shifted in the buffer give the value of the words, or no value when two words claim one digit |
| NumberConvertor.NumberConvertor.OneWord | src/NanoLib/NumberConvertor.cpp:463-666 | one word changes the buffer and the sign as the parsing step does, or is refused with it |
| NumberConvertor.NumberConvertor.LowWord | src/NanoLib/NumberConvertor.cpp:488-577 | units, tens and hundreds go to their digit unless it is taken |
| NumberConvertor.NumberConvertor.Carry | src/NanoLib/NumberConvertor.cpp:580-664 | a scale word moves the three low digits up, one if there are none, unless its place is taken |
| NumberConvertor.TopTotal | src/NanoLib/NumberConvertor.cpp:671-676 | reading the digits from the top gives the value of the groups |
| RandomBox.NanoRandomBox.Refresh | src/NanoLib/NanoRandomBox.cpp:34-58 | under any random numbers the queue is the ascending numbers whose bit is set, each once, after one swap for each random number |
| RandomBox.EveryArrangement | src/NanoLib/NanoRandomBox.cpp:46-56 | every arrangement of the numbers in the box is the queue for some random numbers |
| RandomBox.NanoRandomBox.TakeFromBox | src/NanoLib/NanoRandomBox.cpp:101-109 | the next number of the queue leaves the box and the queue, the others keep their order; an empty box gives -1 |
| RandomBox.NanoRandomBox.TakeNumber | src/NanoLib/NanoRandomBox.cpp:85-93 | exactly the named number is gone from the box, if it was there |
| RandomBox.NanoRandomBox.RetriveToBox | src/NanoLib/NanoRandomBox.cpp:95-99 | exactly the named number is added to the box, and nothing if it is not below the size |
| RandomBox.DrawAll | src/NanoLib/NanoRandomBox.cpp:101-109 | drawing until the box is empty gives every number of the box once and nothing else |
| RandomBox.NanoRandomBox.Init | src/NanoLib/NanoRandomBox.cpp:14-32 | all numbers below the count are in the box |
| RandomBox.NanoRandomBox.IsInBox | src/NanoLib/NanoRandomBox.cpp:80-83 | a number is in the box iff it is in the unread part of the queue |
| RandomBox.NanoRandomBox.Reset | src/NanoLib/NanoRandomBox.cpp:60-63 | all numbers are back in the box |
| RandomBox.NanoRandomBox.Save | src/NanoLib/NanoRandomBox.cpp:111-122 | the size and the mask, and nothing behind them, are written |
| RandomBox.NanoRandomBox.Load | src/NanoLib/NanoRandomBox.cpp:124-144 | succeeds iff the mask is complete; a mask cut short leaves the new size, the mask cut or filled up to it and the old queue, and the box is then sound iff no number of it is cut off and no set bit behind the old size shows up |
| RandomBox.ListsResized | src/NanoLib/NanoRandomBox.cpp:124-144 | a queue that lists the mask lists the resized mask under the same condition |
| RandomBox.SavedBox | src/NanoLib/NanoRandomBox.cpp:116-144 | loading what was saved puts the same numbers in the box |
| RandomBox.FailedLoadBreaks | src/NanoLib/NanoRandomBox.cpp:124-144 | after a refused load 24 numbers can be left in a box of size 1 |
| RandomBox.FailedLoadGrows | src/NanoLib/NanoRandomBox.cpp:124-144 | after a refused load a box of one number, with one left, claims to hold number 5 |
| RandomBox.FullCount | src/NanoLib/NanoRandomBox.cpp:14-32 | a full queue of the numbers below n has n elements |
| HashTable.RawHashTable.Insert | src/NanoLib/RawHashTable.cpp:127-201 | an equal element gives the id of the newest one and changes nothing, a new one gets the next id; the table doubles exactly when the used buckets exceed the rate, and every id stays in the chain of its key |
| HashTable.RawHashTable.Resize | src/NanoLib/RawHashTable.cpp:37-76 | every node is in the chain of its key among the new buckets, and both counts are recomputed exactly |
| HashTable.RawHashTable.Search | src/NanoLib/RawHashTable.cpp:203-217 | the id of the newest equal element iff the table has one; the null head is used iff no node is in the bucket |
| HashTable.RawHashTable.SearchBucket | src/NanoLib/RawHashTable.cpp:208-215 | the search in one bucket finds the newest equal element of the whole table, and none iff there is none |
| HashTable.RawHashTable.Clear | src/NanoLib/RawHashTable.cpp:78-88 | no node is left, and the table has its first size |
| HashTable.RawHashTable.SearchInSubList | src/NanoLib/RawHashTable.cpp:90-125 | the newest element of the chain with the same hash code and bytes, and none iff the chain has none |
| HashTable.RawHashTable.Push | src/NanoLib/RawHashTable.cpp:160-176 | a new head in the chain of its key, counted as a used bucket or a collision |
| HashTable.ChainMembers | src/NanoLib/RawHashTable.cpp:46-73 | a chain holds exactly the ids of its bucket, each once, the newest first |
| HashTable.OneChain | src/NanoLib/RawHashTable.cpp:46-73 | every id is in exactly one chain, in the bucket its stored key chooses |
| HashTable.CountsPush | src/NanoLib/RawHashTable.cpp:162-175 | a new head makes one more used bucket or one more collision |
| HashTable.LayoutLengths | src/NanoLib/RawHashTable.cpp:261-283 | the chains together are as long as there are elements |
| HashTable.RawHashTable.GetMaxListLen | src/NanoLib/RawHashTable.cpp:239-259 | the length of a longest chain |
| HashTable.RawHashTable.GetAvgListLen | src/NanoLib/RawHashTable.cpp:261-283 | the sum of the lengths is the number of elements and the count is the number of used buckets |

## Left out

- Failing allocations, file and network errors: memory, files and sockets work, except where a parameter says
  otherwise (the answer of malloc in the allocator, of fork and realloc in the master, of the status writes in
  the child).
- Null pointers: arguments are sequences; the checks that reject null are not modelled.
- Total sizes of 2 GiB and more in csDataPack: attribute lists are bounded so that no 32-bit size overflows.
- Attributes without a type, which are also dropped on the wire: an attribute here is a string or an integer.
- ChunkTransfer.Request: an unpacked string whose buffer is null is excluded, as the sender takes its length.
- The deep copies that csDataUnPack makes on request: elements are values here.
- ChunkRoundTrip.SingleRead: states the recorded length of a string as the code computes it, two too long.
- Strings with NULs in csDataPack: the round trips are about C strings, as the reader recovers them.
- Lower-casing, UTF-8 and spelling of words: numerals are sequences of words, digits and spaces.
- The synonym tables of the numeral parser: forms are numbered, and form 0 is the one of the parser's tables.
  The synonyms of twenty are misspelt there (NumberParser.cpp:115-116), so its other forms are left as they are.
- Signs in NumberToString: they are rejected before the code that would print them.
- Decimal texts without words: the decimal reader of LongFloat is not part of this model.
- English number words, and fractions of NumberConvertor.
- NumberConvertor.int_i2s: divides exactly where the code uses double quotients, which are exact below 10^15.
- MD5: the digest state is an opaque block of 88 bytes with an arbitrary update function.
- NameIndex.NameIndex.Load: the class keeps the loaded names as values; NamePointers models them as the pointers
  they are. A buffer with a possible frame must be one that Save wrote.
- MemoryAllocator.MemoryAllocator.Allocate: the zeroing of fresh memory and the contents of blocks are not
  modelled; addresses are offsets into sectors.
- Blocks.Blocks.Add: the variant that returns a buffer for the caller to fill later is not modelled; total
  sizes stay below 4 GiB. What the index gives beyond is said by SeekExactly, ReadRight and ReadWrong, for a block
  that is asked for itself and not loaded together with one before it.
- Cache.CacheMemcached.InsertData: sizes above 4294000000 are left out, see LoopStops; failing sets are the
  crashes of the protocol model.
- Time to live, servers and connections of the cache.
- Signals, timers, pid files, configuration parsing and logging of the master; timeouts are events.
- RandomBox.NanoRandomBox.RetriveToBox: numbers beyond the bytes of the mask, which the code does not check, are
  excluded.
- Boxes of more than 2^32 - 8 numbers, whose mask size overflows.
- HashTable.RawHashTable.Insert: hash code and byte comparison are parameters; chains are sequences of ids,
  and an initial size of 0, on which the code divides by zero, is excluded.
- Voice input, flags storage, the knowledge-base compilers and the inference engine.
