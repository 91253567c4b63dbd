# Opticon, modelled and proved

A Dafny 4.11 model of the parts of opticon that carry and keep its data: what a probe
collects is flattened into meters, encoded, sealed and sent, received through a packet queue,
opened, decoded, appended to a log with an index, found again and written out as JSON. Beside
them stand the structures the servers keep: a token cache and a session table.

The form is that of the source. Code that changes things in place is a method on a class or an
array, with its loops, proved equal to a function of the state before; what the source promises
is then proved about those functions. Each module names the source file it follows.

| modules | what they model |
|---|---|
| AesTables, Fips197, Aes, AesKeys, Aes256, AesVectors | the S-boxes, FIPS 197 as the standard states it, the rounds over a 16-byte buffer, the rolling key, the context, the examples of the standard |
| Bits, BitStream, IoPort, BitPort | bytes as bits, what bit reads and writes do to a stream, the port with its buffer and both cursors, bits through one port |
| Wire, WireText, WireFrac, Words, Bytes | the encodings of integers, strings and fractions, words in either byte order |
| WireVectors, WireEdges | encodings byte for byte, and what bytes that no encoder writes are read as |
| Seal, SealPorts, PktWrap | sealing under a key with clock and serial number, its loops over ports, the two envelopes |
| Rfc1321, Md5Rounds, Md5Stream, Md5Vectors | RFC 1321 as the standard states it, the unrolled rounds, the streaming context, a digest of the standard |
| PacketQueue | the packet ring and the counting condition as steps of two threads |
| Ids, IdNames, IdLoops, HostNames | meter ids, the names they spell, the loops over their letters, prefixes |
| Meters, Host, PktCodec, MeterTrip | meters as values, the doubly linked list of a host, the packet codec, its round trip |
| MeterUpdate, EmptiedArrays | decoding as an update of a map from names, what emptied arrays and changed types do to it |
| IndexSearch, RecordLog | the interpolation search in an index file, the log of one day |
| Tables, TokenCache, Sessions, SessionTable | lookups in rows, the token cache, the session table as rows and as linked buckets |
| Json, JsonText, JsonTrip | trees, the printer and the parser as functions, their loops, the round trip |
| JsonLoose, JsonWords, JsonEdges, JsonSamples | the notation the parser accepts as a grammar with a meaning, words without quotes, texts that are refused or lose something, the texts of the parser's test |
| JsonCuts, JsonPair, JsonLimits | strings too long for the printer, keys and depths the parser does not keep |
| HostImport, Flattening, JsonCodec, Regroup, HostJson | trees into meters, meters into trees, both ways together, their loops over a host |
| HostVectors, TreeVectors | the host of the round trip test as bytes and as a tree |
| Strings, Wrappers | characters as bytes, optional values |

## Where the code parts from its promise

The model follows the code. Where that is less than the documentation or a reader would expect,
a lemma gives the exact line, and often a failing case.

- Sealing restores a payload if and only if it is empty or has at least 16 bytes
  (`Seal.RestoredLengths`, aes.c:394 and 420). Both callers keep to that.
- A varint is restored if and only if it is below 2^63 (`Wire.IntRoundTrip`); 2^63 itself is
  sent as nothing at all (`Wire.EncInt`). The mask at ioport.c:241 shifts an int; the model gives it the
  64-bit width the format is documented with.
- The six-bit alphabet has no code for byte 0x7f, which comes back as the letter a
  (`WireText.TextRoundTrip`). A string that is sent in the plain form keeps it.
- A char is signed throughout the model. At ioport.c:187 no char exceeds 127, so a byte from
  0x80 on is looked up before the table, unless a character without a code comes first
  (`WireText.InTable`). What is sent then is undefined, and the theorems are about the strings
  that never get there.
- `ioport_printf` writes at most 4095 characters of a piece, so a longer quoted string loses its
  closing quote at least (`JsonCuts.LongestRun`). One such string, or an odd number, spoils any
  tree (`JsonCuts.OddCuts`); two can make up for each other (`JsonPair.PairComesBack`).
- The index of a single record answers at any time; an index of several records of one time
  divides by zero (`IndexSearch.SearchIsScan`, `RecordLog.SameSecond`). The product in the first guess may wrap around,
  which does no harm (`IndexSearch.GuessInFile`).
- `host_find_prefix` passes over the first meter when it starts from the head
  (`HostList.Host.FindPrefix`), so an emptied array leaves a child there alone: all children are
  emptied if and only if the first meter is none of them, or is empty already
  (`EmptiedArrays.ChildrenEmptied`). If it is the only child, the array becomes a meter beside it
  (`EmptiedArrays.FirstChildKeeps`).
- A meter that is decoded into is sized for its old type before it gets its new one
  (`PktCodec.Target`, codec_pkt.c:104-105). The storage is zeroed, and all values of the new type
  fit it unless an integer or fraction meter becomes a string meter, where each value is a write
  of 128 bytes into elements of 8. The model does not follow that memory: the values become the
  mark Mangled of `Meters.Data`, in that case and no other (`MeterUpdate.ResizedFor`,
  `EmptiedArrays.TextOverNumber`).
- A prefix is got rid of only when it differs from the last one met in the packet, so a meter p
  sent between two meters under p stays beside the second (`MeterUpdate.MeterMeant`).
- Meter data of more than 2048 bytes are sent if they compress well, and never unpacked
  (`PktWrap.MeterRoundTrip`).
- A token of more than 1023 characters is cut off when it is stored, and compared in full when it
  is looked up (`TokenCache.LongTokens`).
- The packet ring has no check for being full (`PacketQueue.FullRingReached`).
- The bit counter of the digest misses a carry when the low counter and the length of one call
  reach 2^33 together (`Md5Stream.Context.Hash`).
- A key of more than 127 characters is cut off when it is stored, and a line end in a key comes
  back as the letter n (`JsonLimits.KeyLimits`). Containers more than seven deep are printed and
  then refused (`JsonLimits.DepthLimit`).
- A value without quotes at the very end of a text is lost (`JsonEdges.LineLost`), and a text that
  ends within a table or after a backslash is read past its end (`JsonEdges.TableOpen`,
  `JsonEdges.BackslashLast`).
- An unset value is printed as an empty string, a negative double comes back as a string, and an
  empty root is not stored (`JsonTrip.PrintParse`).
- A group whose key is the beginning of a later top-level key takes in that key's meters when it
  is written out, and the tree does not come back (`Regroup.TakesLater`). An earlier key does no
  harm: a tree comes back if and only if no group's key is the beginning of a later key and the
  groups are no more than 128 (`Regroup.ImportExport`).
- `dictarray_to_host` reports failure, and `host_import` does not look: a table counts as
  imported though its columns from the first bad one on are dropped (`HostImport.TableDrops`).

## Model

| member | source | states |
|---|---|---|
| AesTables.SboxInverts | src/libopticon/aes.c:29-96 | The inverse S-box table undoes the S-box table for every byte. |
| AesTables.SboxIsAffineOfInverse | src/libopticon/aes.c:29-62 | Each of the 256 table entries is the affine map of the multiplicative inverse in GF(2^8), as section 5.1.1 of FIPS 197 defines the S-box. |
| Aes.SubBytesInPlace | src/libopticon/aes.c:108-113 | The counting-down loop over the buffer is SubBytes of section 5.1.1 of FIPS 197. |
| Aes.InvSubBytesInPlace | src/libopticon/aes.c:116-121 | The same for the inverse table. |
| Aes.AddRoundKeyInPlace | src/libopticon/aes.c:124-129 | Adds the half of the rolling key that starts at the given offset, and leaves the key alone. |
| Aes.AddRoundKeyCopy | src/libopticon/aes.c:132-137 | Adds the first half of a key and leaves the whole of it, both halves, in the other buffer. |
| Aes.ShiftRowsInPlace | src/libopticon/aes.c:141-150 | The hand-written swaps are ShiftRows of section 5.1.2 of FIPS 197. |
| Aes.InvShiftRowsInPlace | src/libopticon/aes.c:153-162 | Its inverse likewise. |
| Aes.MixedColumn | src/libopticon/aes.c:165-176 | The xtime form of a column equals the matrix product of section 5.1.3 of FIPS 197. |
| Aes.UnmixedColumn | src/libopticon/aes.c:179-192 | The form with the shared x, y and z equals the matrix of section 5.3.3 of FIPS 197. |
| Aes.MixColumnsInPlace | src/libopticon/aes.c:165-176 | The loop over the four columns computes MixColumns of the whole block. |
| Aes.InvMixColumnsInPlace | src/libopticon/aes.c:179-192 | The same for InvMixColumns. |
| Fips197.MixColumnsInverts | src/libopticon/aes.c:165-192 | InvMixColumns undoes MixColumns for every block, proved from the linearity of the product, not by cases on bytes. |
| AesKeys.RconSteps | src/libopticon/aes.c:26-27 | F steps the round constant on and FD steps it back, each undoing the other along the whole sequence. |
| AesKeys.ExpandEncKey | src/libopticon/aes.c:195-215 | One call turns the rolling 32-byte key into the next window of the schedule. Byte by byte: the first word is added to the S-box of the last word turned by one byte and to the round constant, the fifth to the S-box of the fourth, every other word to the word before it. |
| AesKeys.ExpandDecKey | src/libopticon/aes.c:218-238 | One call steps the round constant back first and then computes the window before, which is tied to the old key by the same equations between bytes. |
| AesKeys.PreviousOfNext | src/libopticon/aes.c:195-238 | Stepping the rolling key back undoes stepping it on, for every key and every round constant. |
| AesKeys.NextBytes | src/libopticon/aes.c:195-215 | Those equations, for the window that the schedule has next, for every key and every round constant. |
| AesKeys.PreviousBytes | src/libopticon/aes.c:218-238 | And for the window before it. |
| AesVectors.ExpandSchedule | src/libopticon/aes.c:195-215 | The key expansion on the key of appendix A.3 of FIPS 197 yields the words printed there. |
| AesVectors.ExampleCipher | src/libopticon/aes.c:261-278 | The cipher on the key and block of appendix C.3 of FIPS 197 yields the ciphertext printed there. |
| AesKeys.NextWindow | src/libopticon/aes.c:195-215 | After j expansions the rolling key is the window of words 8j to 8j+7 of KeyExpansion, section 5.2 of FIPS 197. |
| AesKeys.WindowWords | src/libopticon/aes.c:195-215 | Each word of a window is the word w[8j+i] that section 5.2 of FIPS 197 defines by recursion. |
| Aes256.Context.constructor | src/libopticon/aes.c:242-249 | Seven expansions leave the decryption key at the last window; encryption key and decryption key fit the given key. |
| Aes256.Context.EncryptEcb | src/libopticon/aes.c:261-278 | The fourteen in-place rounds with the key expanded along the way yield the cipher of section 5.1 of FIPS 197, and the context stays ready for the next call. |
| Aes256.Context.DecryptEcb | src/libopticon/aes.c:281-302 | The rounds that walk the schedule backwards yield the inverse cipher of section 5.3 of FIPS 197, and the context stays ready. |
| Aes256.Context.Done | src/libopticon/aes.c:252-258 | All three keys are zero afterwards. |
| Fips197.InvCipherInverts | src/libopticon/aes.c:261-302 | Deciphering undoes enciphering for every 32-byte key and every block; with the two rows above, so do the two methods of one context. |
| SealPorts.Encrypt | src/libopticon/aes.c:330-364 | The block loop over two ports appends exactly the sealed form of everything that was unread: length, header, payload, random padding, enciphered block by block. |
| SealPorts.Decrypt | src/libopticon/aes.c:368-433 | The block loop reads and writes what the opening function says, in each of its outcomes: opened, wrong serial, clocks apart, overrun. |
| Seal.OpenSealed | src/libopticon/aes.c:330-433 | For any payload of at least 16 bytes and whatever follows the packet: opening fails exactly if the serials differ or one clock is more than 180 ahead of the other, whichever it is, and else yields exactly the payload. |
| Seal.FrameLayout | src/libopticon/aes.c:337-362 | What is enciphered: the clock, the serial number, the payload, and as few random bytes as fill the last block. |
| Seal.FirstMissing | src/libopticon/aes.c:391-410 | Of a packet without a whole first block, the block buffer is deciphered as it happens to be. |
| Seal.LaterMissing | src/libopticon/aes.c:391-429 | Where a later block is missing, the block before it, deciphered already, is deciphered again. |
| Seal.OpenShort | src/libopticon/aes.c:391-431 | What opening yields for 1 to 15 bytes: an unsigned size wraps around up to 7, and from 8 on the first block advances by too little and bytes of the next one are taken from the wrong place. |
| Seal.RestoredLengths | src/libopticon/aes.c:391-431 | Every payload of a length is restored, whatever follows the packet, if and only if the length is 0 or at least 16. |
| PktWrap.AuthRoundTrip | src/libopticon/pktwrap.c:102-241 | Unwrapping a wrapped auth packet restores every field if and only if the one clock minus the other lies between -180 and 180; the payload of 116 bytes meets the lengths above. |
| PktWrap.MeterRoundTrip | src/libopticon/pktwrap.c:67-188 | Meter data that zlib compresses into its 2048 bytes, and whose compressed form it undoes, come back if and only if the one clock minus the other lies between -180 and 180 and the data are at most 2048 bytes long themselves; otherwise the error is that of decryption or of decompression. |
| PktWrap.AuthLayout | src/libopticon/pktwrap.c:102-132 | Where every field of an auth packet and of its payload stands. |
| PktWrap.MeterLayout | src/libopticon/pktwrap.c:67-94 | Where every field of a meter packet stands. |
| PktWrap.OtherTags | src/libopticon/pktwrap.c:146-160 | A packet of fewer than four bytes is a read error, and one that starts otherwise than with o6m1 a type error. |
| PktWrap.RunLibrary | src/libopticon/compress.c:10-72 | zlib is run on the start of the input buffer, fails on an empty one, and its output counts only if it fits the room of the fixed buffer. |
| PktWrap.WrapMeterData | src/libopticon/pktwrap.c:67-94 | The sequence of port writes around the compressor produces the packet of the specification, or none if the data cannot be compressed. |
| PktWrap.UnwrapMeterData | src/libopticon/pktwrap.c:146-188 | The sequence of port reads yields what the specification opens, with the error for each way to fail. |
| PktWrap.WrapAuthData | src/libopticon/pktwrap.c:102-132 | The sequence of port writes produces the packet of the specification. |
| PktWrap.UnwrapAuthData | src/libopticon/pktwrap.c:198-241 | The sequence of port reads yields what the specification opens, including each way to fail. |
| IoPort.Port.BufferWrite | src/libopticon/ioport_buffer.c:20-32 | A write appends all bytes or none; it fails exactly if the buffer is not owned and full. |
| IoPort.Port.BufferRead | src/libopticon/ioport_buffer.c:8-15 | A read takes all the bytes asked for or fails and takes none. |
| IoPort.Port.Grow | src/libopticon/ioport_buffer.c:20-32 | Growth by pages of 4096 keeps the contents. |
| IoPort.Port.ReadAvailable | src/libopticon/ioport_buffer.c:47-51 | The count of bytes written and not yet read. |
| IoPort.Port.WriteBits | src/libopticon/ioport.c:129-147 | The written bit string grows by exactly the low bits of the value, most significant first, also across a byte boundary; more than eight bits are refused. |
| IoPort.Port.FlushBits | src/libopticon/ioport.c:155-160 | The open byte is written out, padded with zero bits. |
| IoPort.Port.ReadBits | src/libopticon/ioport.c:334-355 | Takes exactly the next bits of the remaining bit string, from any position including the exhausted byte at bit position 8, and zero bits past the end. |
| BitStream.ItemsReadBack | src/libopticon/ioport.c:129-355 | Reading the widths that were written returns every value modulo 2 to its width and leaves exactly the bits that follow. |
| BitStream.BitStreamRoundTrip | src/libopticon/ioport.c:129-355 | After a flush the same holds from a byte-aligned reader, and less than a byte of zero padding is left before what follows. |
| BitPort.SendItems | src/libopticon/ioport.c:129-355 | Through one port: written, flushed, followed by other bytes and read at the same widths, every value comes back modulo 2 to its width, and the bytes left unread are exactly the ones that follow. |
| Wire.IntRoundTrip | src/libopticon/ioport.c:235-421 | A varint is read back, with the cursor after it and for any following bytes, if and only if it is below 2^63. |
| Wire.IntShortest | src/libopticon/ioport.c:235-421 | No byte string the reader takes for a number is shorter than the one the writer chooses. |
| IoPort.Port.WriteEncInt | src/libopticon/ioport.c:235-250 | The descending loop over seven-bit groups writes the specified encoding. |
| IoPort.Port.ReadEncInt | src/libopticon/ioport.c:410-421 | The loop to the first byte without the top bit reads as the specified decoder, and ends at the end of the data. |
| WireText.TextRoundTrip | src/libopticon/ioport.c:182-385 | A string of up to 127 characters without NUL that the writer can look up in its table, as it can any ASCII string, is read back, with the cursor after it, if and only if it holds no byte 0x7f or falls back to the plain form. |
| IoPort.Port.WriteEncString | src/libopticon/ioport.c:182-197 | For strings it can look up in its table: writes six-bit codes if every character has one, the plain form otherwise, and refuses more than 127 characters. |
| IoPort.Port.ReadEncString | src/libopticon/ioport.c:362-385 | Reads either form as the specified decoder does, including truncated input. |
| WireFrac.FractionLoss | src/libopticon/ioport.c:206-443 | Over the reals, a fraction never arrives larger; it loses less than 1/128 below 192 and at most a 96th from 192 up to 2^38. |
| WireFrac.FractionMonotone | src/libopticon/ioport.c:206-443 | Sending keeps the order of fractions, also across the change of form at 192. |
| IoPort.Port.WriteEncFrac | src/libopticon/ioport.c:206-227 | The halving loop and the two-byte form write the specified encoding. |
| IoPort.Port.ReadEncFrac | src/libopticon/ioport.c:426-443 | Reads as the specified decoder. |
| IoPort.Port.WriteU32 | src/libopticon/ioport.c:271-274 | Four bytes in network order. |
| IoPort.Port.WriteU64 | src/libopticon/ioport.c:259-262 | Eight bytes in network order. |
| IoPort.Port.ReadU32 | src/libopticon/ioport.c:400-405 | Reads four bytes, or 0 past the end. |
| IoPort.Port.ReadU64 | src/libopticon/ioport.c:390-395 | Reads eight bytes, or 0 past the end. |
| WireVectors.IntExamples | test/test_ioport.c:21-22 | The integers of the port test and the bytes they are sent as. |
| WireVectors.TextExample | test/test_ioport.c:20 | The string of the port test, hello world., in its ten bytes. |
| WireVectors.BitExample | test/test_ioport.c:15-19 | The bits of the port test, in three bytes. |
| WireVectors.CodeIs | src/libopticon/ioport.c:162-175 | The six-bit code of every character, range by range. |
| WireVectors.FourCharacters | src/libopticon/ioport.c:182-197 | Four characters share three bytes, the first in the high bits. |
| WireEdges.IntCutOff | src/libopticon/ioport.c:410-421 | A number whose last group is missing is read as if that group were zero. |
| WireEdges.TextWithZero | src/libopticon/ioport.c:362-385 | A plain string stops at its first zero byte, and the cursor is still after all of it. |
| WireEdges.SixBitCutOff | src/libopticon/ioport.c:362-385 | A six-bit string with bytes missing is read as if zero bytes followed. |
| Md5Stream.Context.constructor | src/libopticon/pwcrypt.c:39-48 | A fresh context has hashed the empty message. |
| Md5Stream.Context.Process | src/libopticon/pwcrypt.c:50-171 | The 64 unrolled steps on wide words leave, in the low 32 bits, what section 3.4 of RFC 1321 computes from the state and the block. |
| Md5Stream.Context.Hash | src/libopticon/pwcrypt.c:173-210 | However a message is split into calls, the context stands for the concatenation; the bit counter stays right if and only if the low counter and the length stay below 2^33. |
| Md5Stream.Context.End | src/libopticon/pwcrypt.c:220-243 | The digest is that of sections 3.1 to 3.5 of RFC 1321 for everything hashed, while the counter is right. |
| Md5Vectors.KnownDigest | src/libopticon/pwcrypt.c:50-243 | The digest of the 62 letters and digits, as section A.5 of RFC 1321 gives it. |
| Rfc1321.PaddedLength | src/libopticon/pwcrypt.c:212-243 | Padding and length always end on a block boundary. |
| Md5Rounds.RotateLow | src/libopticon/pwcrypt.c:50-76 | Masking only inside the rotation agrees with 32-bit rotation for every shift the algorithm uses. |
| PacketQueue.RunKeeps | src/libopticon/packetqueue.c:13-63 | In every interleaving of producer and consumer steps with at most sz-2 packets unread, the ring invariant and the signal count hold at every state. |
| PacketQueue.InOrder | src/libopticon/packetqueue.c:13-63 | What was returned is a prefix of what was committed, and that of what came in, byte for byte, with at most one packet between; empty packets are not among them, and the packet in use is still the one returned. |
| PacketQueue.NoLostWakeup | src/libopticon/thread.c:92-112 | The consumer sleeps on unread data only while the producer is between advancing the write position and signalling. |
| PacketQueue.SignalsAddUp | src/libopticon/thread.c:71-112 | Every packet is signalled once, and each signal is waited for or still counted. |
| PacketQueue.FullRingOverwrites | src/libopticon/packetqueue.c:13-43 | Why the backlog is a hypothesis: with sz-1 packets unread, the next one received overwrites the one in use. |
| PacketQueue.FullRingReached | src/libopticon/packetqueue.c:13-63 | A run from the start, for every ring size, that gets there and overwrites the packet in use. |
| HostList.MeterNode.SetCount | src/libopticon/meter.c:87-127 | A meter is emptied or gets zeroed storage for the type its id has at that moment. |
| HostList.MeterNode.SetUint | src/libopticon/meter.c:132-139 | Stores one integer if type and index fit, and else nothing. |
| HostList.MeterNode.SetFrac | src/libopticon/meter.c:144-151 | The same for fractions. |
| HostList.MeterNode.SetStr | src/libopticon/meter.c:156-164 | The same for strings, cut to 127 characters. |
| HostList.MeterNode.GetStr | src/libopticon/meter.c:56-68 | The string at an index, empty for an emptied meter, a wrong type or a wrong index. |
| HostList.Host.FindMeterName | src/libopticon/host.c:125-133 | The first meter of a name, or none. |
| HostList.Host.GetMeter | src/libopticon/host.c:156-186 | The first meter that is the id or the one of its name that is emptied as an array, or a new one linked at the end; the list stays linked both ways and counted. |
| Meters.FirstTaken | src/libopticon/host.c:156-186 | Which meter a name and type lead to, among any meters. |
| Meters.TextSet | src/libopticon/meter.c:56-164 | A string that is set is there, cut to 127 characters, and the strings at other indices stay. |
| HostList.Host.FindPrefix | src/libopticon/host.c:191-206 | The first meter under a prefix after a given one; a search from the start passes over the first meter. |
| HostList.Host.DeleteMeter | src/libopticon/host.c:223-255 | Unlinks one meter, at either end or between, and leaves the others in order, linked both ways and counted. |
| HostNames.PrefixSpells | src/libopticon/util.c:98-110 | idgetprefix yields the part of the name before its first slash, and 0 if there is none. |
| HostNames.MaskIs | src/libopticon/util.c:57-67 | id2mask covers exactly the letters of the name. |
| HostNames.UnderIsStart | src/libopticon/host.c:191-206 | A meter lies under a prefix if and only if its name starts with the name of the prefix and a slash. |
| MeterTrip.MeterReads | src/libopticon/codec_pkt.c:54-130 | One encoded meter, whatever follows it, decodes to that meter at the end of the list. |
| MeterTrip.HostRoundTrip | src/libopticon/codec_pkt.c:9-132 | Decoding the encoding of a host into an empty host yields the same meters, types, counts and values in order, fractions as they arrive. |
| HostNames.NamedRoundTrip | src/libopticon/codec_pkt.c:9-132 | The same with the condition in terms of names: all different, and no meter p beside a meter p/x. |
| HostVectors.SampleBytes | test/test_roundtrip_encoding.c:125-156 | The packet of a host of five of the meters of the round trip test, byte for byte. |
| MeterUpdate.MeterMeant | src/libopticon/codec_pkt.c:54-129 | Decoding one meter into any host does what the packet says, seen as a map from names, if and only if: a full host has its name, no number becomes a string, no meter of its prefix came back after the prefix was last met, and an array whose children are to be emptied does not have the first meter for its only child, nor for one that holds values. |
| MeterUpdate.MeterUpdates | src/libopticon/codec_pkt.c:54-129 | For every host and every meter sent, the list afterwards, the prefix remembered, and how far the packet is read, whether or not the values found room. |
| MeterUpdate.HostUpdate | src/libopticon/codec_pkt.c:47-132 | Decoding a packet into a host of any meters does to its map from names what the meters sent mean, one after the other: children of an emptied array emptied, a meter named like a prefix gone, all else replaced or added, types and all. |
| MeterUpdate.CompatibleUpdates | src/libopticon/codec_pkt.c:47-132 | That a packet goes through can be told beforehand, by comparing the ids of its meters with each other and with those of the host. |
| MeterUpdate.LastWins | src/libopticon/codec_pkt.c:47-132 | In a packet without empty arrays, a name that is no prefix has what was sent of it last, and what it had if nothing was. |
| EmptiedArrays.ChildrenEmptied | src/libopticon/codec_pkt.c:57-77 | An array p sent empty leaves every meter whose name starts with p and a slash an empty array if and only if the first meter of the list is not one of them, or is an empty array already. |
| EmptiedArrays.FirstChildKeeps | src/libopticon/codec_pkt.c:57-77 | The failing case: where the first meter p/x is the only child, it keeps its value and the array becomes a meter p beside it. |
| Meters.DecHostQuota | src/libopticon/codec_pkt.c:47-132 | Decoding any bytes into any list never leaves more than 257 meters, or more than there were. |
| PktCodec.WriteValue | src/libopticon/codec_pkt.c:9-20 | Writes one value in the form of the meter's type, and fails for a type it does not know. |
| PktCodec.EncodeHost | src/libopticon/codec_pkt.c:25-42 | The walk over the linked list writes the specified encoding of its meters, and stops if one with values has no known type. |
| PktCodec.DecodeHost | src/libopticon/codec_pkt.c:47-132 | For any bytes and any well-formed host: it terminates, yields the outcome and meters of the specification, and keeps the list linked both ways, counted, and within the limit. This is about the list; strings sent for a number meter are the mark Mangled. |
| PktCodec.EmptyChildren | src/libopticon/codec_pkt.c:61-70 | An emptied array empties the meters under it instead, if there are any past the first. |
| PktCodec.DeleteNamed | src/libopticon/codec_pkt.c:82-91 | All meters named like the prefix are deleted; the shared string buffer ends up with the last one's name. |
| PktCodec.Target | src/libopticon/codec_pkt.c:93-106 | The meter to fill: sized by the type it had, then of the type sent, its zeroed storage read by that type, or none if the host is full. Storage of a number read as strings is the mark Mangled. |
| MeterUpdate.ResizedFor | src/libopticon/codec_pkt.c:103-106 | A meter of the same name is set up as a new one would be if and only if no values are sent, or it had a type and was a string or does not become one; its storage is too small for what follows if and only if a number becomes a string. |
| MeterTrip.UnknownType | src/libopticon/codec_pkt.c:107-126 | A meter of the fourth type, which no value has, ends the decoding with an error. |
| EmptiedArrays.TextOverNumber | src/libopticon/codec_pkt.c:103-125 | The failing case: a string sent for an integer meter goes to storage made for the integer. An integer sent for a string meter arrives. |
| IndexSearch.File.Read64 | src/libopticondb/db_local.c:246-252 | A word in host order, 0 if there is no whole word left. |
| IndexSearch.FindIndex | src/libopticondb/db_local.c:263-319 | On any index file with ordered nonzero times, the interpolation search ends with what the linear scan finds, from whichever side the first guess lands; with one record it answers 0, with several of one time it divides by zero. |
| IndexSearch.ScanSplits | src/libopticondb/db_local.c:263-319 | What the scan means: the entries up to the one found are exactly those at or before the time asked for. |
| IndexSearch.SearchIsScan | src/libopticondb/db_local.c:263-319 | The exact condition, in terms of the first and last time, under which the code answers what a scan should. |
| IndexSearch.GuessInFile | src/libopticondb/db_local.c:283-285 | The first guess lies in the file even if the 64-bit product wraps around. |
| RecordLog.RecordReads | src/libopticondb/db_local.c:346-394 | Every index offset leads to a zero pad followed by a record that decodes by itself, whatever follows, to the meters saved. |
| RecordLog.RunRoundTrip | src/libopticondb/db_local.c:346-511 | After any run of at least two saves, not all of one time, reading at any time from the first save to 90 seconds past the last yields exactly the host saved last at or before it. |
| RecordLog.SingleSave | src/libopticondb/db_local.c:274-278 | A single save is found at any time whatever. |
| RecordLog.NothingFound | src/libopticondb/db_local.c:263-319 | Before the first save and from 91 seconds after the last nothing is found, and the host keeps its meters. |
| RecordLog.SameSecond | src/libopticondb/db_local.c:283-285 | Several saves of one second cannot be read in the next 90: the search divides by zero. |
| RecordLog.RecordLayout | src/libopticondb/db_local.c:459-511 | A record is a zero word, the time in eight bytes, and the packet form of the meters. |
| RecordLog.StaleReads | src/libopticondb/db_local.c:459-475 | A host is stale exactly if it has a status, and that reads STALE. |
| RecordLog.DayLog.SaveRecord | src/libopticondb/db_local.c:459-511 | Appends pad, time and record, and the index entry that points at it, and rewrites the current record; fails exactly for a stale host without files. |
| RecordLog.DayLog.GetRecord | src/libopticondb/db_local.c:346-394 | Search, seek, check the pad, decode: the outcome and the meters of the specification, at any time, with the division by zero as an outcome of its own. |
| RecordLog.DayLog.GetCurrent | src/libopticondb/db_local.c:324-341 | Decodes the current record. |
| TokenCache.RunKeeps | src/opticon-api/tokencache.c:69-248 | Over any run of requests, whatever the hash function and the random evictions: a hit is the latest verdict stored for that very token, within its timeout; no hash is live in both arrays. |
| TokenCache.StoredIsFound | src/opticon-api/tokencache.c:69-248 | A verdict that was stored still answers after any run of lookups of any tokens, as long as its time is not up and nothing else was stored. |
| TokenCache.VictimIs | src/opticon-api/tokencache.c:145-248 | The slot a store takes: the first free or expired one, else the least recently used, else, if all were used just now, a random one. |
| TokenCache.RunUses | src/opticon-api/tokencache.c:69-248 | Over any run of requests, every live entry carries the time of the last hit on its token, or of its store if that was later, in both arrays. |
| TokenCache.LeastUsedGoes | src/opticon-api/tokencache.c:197-248 | A store into 256 live entries, none past its 1800 seconds, after any run: it evicts a token that no other was used longer ago than. |
| TokenCache.SweepClears | src/opticon-api/tokencache.c:115-139 | A sweep clears exactly the accepted tokens older than 1800 seconds and the rejected ones older than 60, and not more than once a minute. |
| TokenCache.HitSweeps | src/opticon-api/tokencache.c:69-112 | A hit sweeps if the last sweep was a minute ago or more, and a miss never does. |
| TokenCache.RoomLeft | src/opticon-api/tokencache.c:197-248 | With fewer than 256 entries nothing is evicted. |
| TokenCache.LongTokens | src/opticon-api/tokencache.c:145-248 | A token of more than 1023 characters is never answered from the cache, after any run of requests. |
| TokenCache.Cache.constructor | src/opticon-api/tokencache.c:47-60 | The empty cache. |
| TokenCache.Cache.Lookup | src/opticon-api/tokencache.c:69-112 | The scan over both arrays, with the sweep after a hit and its own reading of the clock, computes the specified answer and state. |
| TokenCache.Cache.Expire | src/opticon-api/tokencache.c:115-139 | Clears exactly the entries past their timeout. |
| TokenCache.Cache.StoreInvalid | src/opticon-api/tokencache.c:145-187 | The new state: the hash leaves the valid entries and takes its slot among the invalid ones. |
| TokenCache.Cache.StoreValid | src/opticon-api/tokencache.c:197-248 | The new state: the hash leaves the invalid entries and takes its slot, growing the array while it is not full. |
| TokenCache.Cache.Authenticate | src/opticon-api/main.c:373-400 | A request looks up first and stores only what it missed, which is what the run above is made of. |
| Sessions.RunRefines | src/libopticon/auth.c:64-240 | Over any run of register, remove-tenant and expire, a lookup of any name finds exactly what a flat account of that name says, and every row stays in its bucket with at most one unexpired session a name. |
| Sessions.RunFinds | src/libopticon/auth.c:64-240 | Over any run: a name is found if and only if it has logged in, was not removed with its tenant since, and no later expiry was past the time of its last login; it then has the key, the address and the time of that login, and the tenant and host of the login that made it. |
| Sessions.RegisterFields | src/libopticon/auth.c:142-170 | The session found after a login, field by field: key, address and time are those of the login; tenant and host are the ones it had, or those of the login if there was none. |
| Sessions.LoginKeeps | src/libopticon/auth.c:142-240 | A session that logs in again outlives an expiry between the two logins. |
| Sessions.RegisterRefines | src/libopticon/auth.c:142-170 | Registering renews the session of that name or adds one, and changes no other. |
| Sessions.TenantRefines | src/libopticon/auth.c:64-75 | Removing a tenant hides exactly its sessions. |
| Sessions.ExpireRefines | src/libopticon/auth.c:201-240 | Expiring hides exactly the sessions older than the cutoff. |
| Sessions.ExpiredKeeps | src/libopticon/auth.c:201-240 | What is left in a row are exactly the sessions neither marked nor too old. |
| SessionTable.Bucket.Link | src/libopticon/auth.c:119-136 | Links a node in at the front of a doubly linked list. |
| SessionTable.Bucket.Expire | src/libopticon/auth.c:201-240 | The walk that marks, unlinks and revisits leaves exactly the surviving sessions, linked both ways. |
| SessionTable.Table.Find | src/libopticon/auth.c:176-195 | Finds the session of an address and id if and only if the table holds one that is not expired. |
| SessionTable.Table.Register | src/libopticon/auth.c:142-170 | The new rows of all 256 buckets; nothing changes for a host that does not exist. |
| SessionTable.Table.RemoveTenant | src/libopticon/auth.c:64-75 | The new rows of all 256 buckets. |
| SessionTable.Table.Expire | src/libopticon/auth.c:201-240 | The new rows of all 256 buckets. |
| JsonTrip.PrintParse | src/libopticon/var_dump.c:20-105 | If no string is too long for the printer, parsing what was printed succeeds at the closing brace and yields, in the same order, the tree in its normal form. |
| JsonCuts.LevelConserves | src/libopticon/var_parse.c:41-421 | Parsing adds no hash sign to the tree, and if it loses none the text is read as its quotes and escapes alone say, with no comment in it. |
| JsonCuts.OddCuts | src/libopticon/var_dump.c:53-57 | A tree in which the printer cuts off one string, or any odd number of them, does not come back, whatever else it holds. |
| JsonCuts.RoundTrip | src/libopticon/var_parse.c:41-421 | With no string cut off, the same tree comes back if and only if it is not empty and holds no unset value and no double but nonnegative whole millionths; with an odd number of them cut off it never does. |
| JsonCuts.OneString | src/libopticon/ioport.c:45-54 | A tree of one string comes back if and only if the string, escaped and quoted, fits the 4095 characters that ioport_printf writes. |
| JsonCuts.LongestRun | src/libopticon/ioport.c:45-54 | Of the strings of one letter, those of up to 4093 come back; 4094 is the first that does not. |
| JsonLimits.KeyLimits | src/libopticon/var.c:559-563 | Of the keys that are printed in full, those that come back are exactly the ones with 1 to 127 characters and no line end. |
| JsonLimits.AnyKey | src/libopticon/var_parse.c:151-160 | What every other key comes back as: cut off at 127 characters, a line end as the letter n, an empty key not at all. |
| JsonLimits.DepthLimit | src/libopticon/var_parse.c:41-46 | Dictionaries nested in each other come back if and only if there are at most seven below the root; deeper ones are refused. |
| JsonPair.PairComesBack | src/libopticon/var_dump.c:53-57 | A tree of two strings that are both cut off and that comes back all the same, each making up for the other, so that fitting is not necessary for every string. |
| JsonTrip.NormalExact | src/libopticon/var_dump.c:20-84 | The normal form changes a tree if and only if it holds something inexact, at any depth. |
| JsonTrip.QuotedRun | src/libopticon/var.c:1340-1358 | The parser, inside quotes, undoes the escaping of any string, whatever follows. |
| JsonText.EscapeStr | src/libopticon/var.c:1340-1358 | The loop with two cursors writes the specified escaping. |
| JsonText.WriteIndented | src/libopticon/var_dump.c:20-82 | The recursive printer writes the specified text, every piece cut at 4095 characters, and refuses a value without children. |
| JsonText.WriteVar | src/libopticon/var_dump.c:99-105 | The whole text, with the outcome, every piece cut at 4095 characters. |
| JsonText.ParseLevel | src/libopticon/var_parse.c:41-421 | The loop over states and buffers, with its recursion, reads as the specified machine does and stops exactly there; keys are cut off at 127 characters as they are stored. |
| JsonLoose.ParseMeans | src/libopticon/var_parse.c:41-487 | For every text of the grammar the parser accepts, with any layout, comments, quotes or none, colons or none, nested and with keys that occur again, parsed into any dictionary: it becomes what the text means, or is refused exactly if the text means nothing. |
| JsonLoose.BracedMeans | src/libopticon/var_parse.c:59-65 | The same for a text within braces, and nothing after the closing brace is read. |
| JsonLoose.PutFinds | src/libopticon/var.c:330-353 | A member is replaced where its key first is, if the kinds agree, and else goes to the end. |
| JsonWords.Unquoted | src/libopticon/var_parse.c:222-256 | A word without quotes is stored as an integer exactly if it is all digits, as a double exactly if it is digits and one dot, and in every other case as the string it is; for every key and every word. |
| JsonWords.UnquotedElem | src/libopticon/var_parse.c:348-380 | The same for a word in an array. |
| JsonWords.Address | src/opticon-collector/opticon-collector.conf.example:3 | An address with more than one dot is a string: 192.168.1.1 and 0.0.0.0. |
| JsonSamples.PlainText | test/test_parse.c:44-51 | The first text of the parser test yields the tree that the test asks for. |
| JsonSamples.QuotedText | test/test_parse.c:53-61 | So does the second, in the other notation. |
| JsonSamples.FaultyText | test/test_parse.c:73-81 | The faulty text is refused where its fault is. |
| JsonSamples.Dumped | test/test_parse.stdout:1-13 | That tree prints as the test expects, blank for blank. |
| JsonEdges.LongName | src/libopticon/var_parse.c:141-149 | A key of 4096 characters is refused. |
| JsonEdges.LongWord | src/libopticon/var_parse.c:247-260 | So is a value of 4096 characters without quotes. |
| JsonEdges.LongText | src/libopticon/var_parse.c:262-290 | So is one of more than 4095 characters in quotes, escapes counted once. |
| JsonEdges.LineLost | src/libopticon/var_parse.c:222-256 | A value without quotes at the very end of a text is lost, and the text counts as parsed. |
| JsonEdges.BackslashLast | src/libopticon/var_parse.c:262-290 | A backslash at the end of a text leads past it. |
| JsonEdges.TableOpen | src/libopticon/var_parse.c:170-185 | So does a text that ends within a table. |
| JsonEdges.RootPrinted | src/libopticon/var_dump.c:86-105 | A dictionary is printed at the root as anywhere, an array with braces for its brackets, and anything else as nothing, with an error. |
| Json.FindKey | src/libopticon/var.c:330-353 | The first member of a key. |
| IdNames.MakeSpells | src/libopticon/util.c:39-52 | makeid puts the letters of a name in their places. |
| IdNames.SpelledName | src/libopticon/util.c:117-133 | id2str yields the name an id spells, so it undoes makeid. |
| IdNames.SameSpelling | src/libopticon/util.c:39-133 | Ids with the same name bits spell the same name. |
| IdNames.CaseFolds | src/libopticon/util.c:39-52 | Ids do not tell upper case from lower case. |
| IdNames.TwoParts | src/libopticon/util.c:168-194 | The path of a two-part name covers exactly its first part. |
| IdNames.NodeIsPart | src/libopticon/util.c:142-163 | nodeid2str yields its second part. |
| IdNames.SharesPath | src/libopticon/meter.c:169-179 | Another meter agrees with a grouped one under its path if and only if its name starts with the first part. |
| IdLoops.MakeIdLoop | src/libopticon/util.c:39-52 | The shifting loop computes the specified id. |
| IdLoops.MaskLoop | src/libopticon/util.c:57-67 | The loop computes the specified mask. |
| IdLoops.IsPrefixLoop | src/libopticon/util.c:79-91 | The loop decides the specified relation. |
| IdLoops.GetPrefixLoop | src/libopticon/util.c:98-110 | The loop computes the specified prefix. |
| IdLoops.NameLoop | src/libopticon/util.c:117-133 | The loop with its end pointer yields the specified text. |
| IdLoops.NodeLoop | src/libopticon/util.c:142-163 | The loop with its write flag yields the specified text. |
| IdLoops.PathLoop | src/libopticon/util.c:168-194 | The two loops compute the specified mask. |
| Flattening.ImportReads | src/libopticon/host_import.c:91-222 | Importing any list of permitted members into a fresh host yields exactly their columns, in order. |
| Flattening.MemberReads | src/libopticon/host_import.c:97-219 | A member whose names are new to the host adds its own meters and changes no other. |
| Flattening.TableReads | src/libopticon/host_import.c:12-77 | An array of rows becomes one column per key, with a value per row. |
| Flattening.GroupReads | src/libopticon/host_import.c:175-217 | A group becomes one single-valued column per key. |
| Regroup.GroupBack | src/libopticon/codec_json.c:91-147 | The first meter of a group writes the whole group as it was, as one row or as many. |
| Regroup.ImportExport | src/libopticon/codec_json.c:65-175 | For every tree of the permitted forms, importing it into a fresh host gives its columns, and writing that out gives back the same tree, doubles rounded to three decimals, if and only if no group's key is the beginning of a later key and the groups are no more than 128. |
| Regroup.TakesLater | src/libopticon/meter.c:169-179 | The failing case: the group cpu takes in a later key cpux, and the tree does not come back; with the two in the other order it does. |
| Regroup.TooManyEntries | src/libopticon/meter.c:169-179 | Why: a group with a later meter of the same beginning is written with more entries than it has meters. |
| HostJson.ImportHost | src/libopticon/host_import.c:91-222 | The loops over the tree, on the linked host, leave the specified meters in every case, errors included. |
| HostJson.ImportTable | src/libopticon/host_import.c:12-77 | The nested cursor loops, column by column, leave the specified meters. |
| HostImport.TableDrops | src/libopticon/host_import.c:133-135 | A table always counts as imported; the columns from the first with a name too long or a type unknown on are dropped, and none is if there is no such column. |
| HostImport.ColumnLost | src/libopticon/host_import.c:23-49 | The failing case: a table of two columns, the second without a type, is imported as the one column is. |
| HostImport.MemberRefused | src/libopticon/host_import.c:97-219 | A member is refused exactly for its shape; a list of strings with something else among its first 29 values stops the program. |
| HostImport.AsInteger | src/libopticon/var.c:678-706 | What each kind of value becomes as an integer. |
| HostImport.ListCut | src/libopticon/host_import.c:129-172 | Values after the 29th of a list are dropped, and the first decides the type. |
| HostImport.RowsCut | src/libopticon/host_import.c:12-77 | So are the rows of a table after the 29th. |
| HostImport.ImportStops | src/libopticon/host_import.c:175-217 | A group refused in the middle ends the import, and the meters of the members before it stay. |
| HostJson.EncodeJson | src/libopticon/codec_json.c:91-175 | The walk with the table of paths done yields the specified tree. |
| JsonCodec.Unset | src/libopticon/codec_json.c:14-60 | A meter that was never set is null by itself and the zero of its type within a group. |
| TreeVectors.TreeImported | test/test_roundtrip_encoding.c:125-156 | A tree of the round trip test, imported, is the host whose packet is given above. |
| TreeVectors.FractionsOfTest | test/test_roundtrip_encoding.stdout:5-25 | The fractions of that test as they come out of the packet and of JSON. |
| HostJson.DumpRow | src/libopticon/codec_json.c:65-84 | One row of a group: the values of a meter and all its siblings at one index. |
| Regroup.ValueBack | src/libopticon/codec_json.c:14-60 | The value written at an index of a meter is the value that was imported there, doubles rounded to three decimals. |
| HostJson.FindSibling | src/libopticon/meter.c:169-179 | The next meter down the list that agrees under the path mask. |

## Left out

- Wire.IntRoundTrip: the shift at ioport.c:241 is modelled at 64 bits, as if its left operand were unsigned; what a compiler makes of the shift of an int is not modelled.
- Seal.RestoredLengths: quantifies over what follows the packet; for a payload of 8 bytes with fewer than 16 bytes after it, the result depends on deciphering one block twice and is not decided.
- Seal.OpenShort: an unsigned size that wraps around is the outcome Overrun; what is overwritten is not modelled.
- WireFrac.FractionLoss: fractions are real numbers with an infinite value beside them, without the rounding of doubles; a power of two past the width of an int is not modelled, which leaves fractions below 2^38.
- PktWrap.MeterRoundTrip: zlib is two parameters, one undoing the other on the data sent; random padding, clocks and the key lookup are parameters.
- PktWrap.UnwrapMeterData: the same.
- PktWrap.UnwrapAuthData: an empty sealed payload leaves a port nothing was written to, and reading that port reads its raw buffer; those bytes are the ghost result blank.
- WireText.TextRoundTrip: strings in which a byte from 0x80 on comes before every character without a code, where the source reads before its table, are outside it.
- PktCodec.EncodeHost: requires strings the writer can look up, and leaves out hosts in which a number meter was sent strings, whose storage is too small for them.
- PktCodec.WriteValue: the same.
- PktCodec.DecodeHost: states the list for any bytes; a write of strings past the end of storage made for numbers is not modelled beyond the mark Mangled.
- PktCodec.Target: the same.
- MeterUpdate.HostUpdate: requires of each meter the condition that MeterUpdate.MeterMeant proves exact; what happens after one that does not go is what MeterUpdate.MeterUpdates says, without a law for the packet.
- MeterUpdate.MeterMeant: its only-if half is about hosts with room, in which an array that is to empty its children is not a meter itself.
- HostList.Host.DeleteMeter: the list of meters to be freed, modification times and locks of a host are not modelled.
- RecordLog.DayLog.SaveRecord: requires a nonzero time not before the last one saved, and meters that PktCodec.EncodeHost can write. One host and one day; files are byte sequences, the renaming of the new current file and failures of I/O are not modelled; a time before 1970 is a large word.
- IndexSearch.FindIndex: times in the index are ordered and not zero, which RecordLog.IndexOrdered proves of every run of saves.
- IndexSearch.File.Read64: a short read may leave the cursor anywhere up to the end; nothing depends on where.
- PacketQueue.RunKeeps: no wakeup without a signal, and at most sz-2 packets unread, since the source checks neither; the two threads take turns at atomic steps.
- TokenCache.StoredIsFound: stores of other tokens in between, which may evict the entry, are left to TokenCache.RunKeeps.
- TokenCache.RunKeeps: one thread; the hash is any function that is never 0, tokens have at most 1023 characters, beyond which TokenCache.LongTokens holds, and copies of an entry's lists are values.
- JsonLoose.ParseMeans: says what every text of the grammar becomes. Of texts outside it JsonEdges names what is refused and what is lost, each from where the text leaves the grammar; there is no law for all of them. The tree that a refused text leaves behind is not described.
- SessionTable.Table.Register: the last serial number of a session, which the collector compares, is not modelled; ids of tenants, hosts and keys are opaque numbers; whether the host exists is a parameter. sessiondb_save and sessiondb_restore are not modelled.
- JsonTrip.PrintParse: keys have 1 to 127 characters and no newline and containers lie at most seven levels below the root, which JsonLimits shows to be needed, and no string is cut off, which means that escaped and with its quotes it has at most 4095 characters. Strings may hold the character NUL in the model, which no C string does.
- JsonCuts.RoundTrip: says nothing of an even number of strings that are cut off. JsonPair.PairComesBack shows that such a tree can come back; which of them do depends on what the strings contain, and is not characterised.
- JsonText.ParseLevel: a tree is a value, without back links, caches and generations; a key that was cut off is found again by what is left of it, where the source compares the hash of the whole key first; error texts and line numbers are not modelled; reading past the terminating NUL is the outcome PastEnd.
- JsonText.WriteVar: doubles are real numbers printed with six decimals, halves rounded up.
- HostJson.ImportHost: strtoull and atof are parameters; the conversion of a negative double to an unsigned integer, which C leaves undefined, yields 0.
- HostJson.EncodeJson: the output is a tree, not its text with its indentation; a read outside a meter's values yields no tree.
- Regroup.ImportExport: keys are lower-case names of one part, rows share the first row's keys and types, arrays have at most 29 elements; upper case, which the ids fold, is outside it.
- IdLoops.MakeIdLoop: characters from 128 on are negative, as where char is signed.
- Aes256.Context.EncryptEcb: the schedule's loops are unrolled by word, and the tables are written by rows; timing is not modelled.
- Md5Stream.Context.End: the counter is right, which holds for every message passed in calls of at most 2^32 bytes.
- Zlib, sockets, mmap, logging, HTTP handlers, probes and the command line, which are calls into other code.
- var_sort, var_delete_key, generation tracking, notifications, graphs and logs of a day, and the summaries, which the data path above does not use.
- UUID text, base64, word lists and password hashing around the digest, which would add only easy members.
