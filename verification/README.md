# Verification of the SMS gateway's client side

A Dafny model of four parts of this repository, with proofs about them. `dafny verify
dfyconfig.toml` checks everything.

**Streaming hashes.** Two unrelated MD5 implementations (`md5.cpp` and the embedded web
server) and one SHA-1. Contexts are objects with the source's fields; the round macros and
the byte-order tricks are written out as the source has them, for hosts of either byte
order. They are proved equal to RFC 1321 and FIPS 180-4 over whole streaming runs, and
hence to each other. `HashStream` holds what does not depend on the hash; `Md5Spec` and
`Sha1Spec` are the standards.

**Parsers of the web server.** The backtracking glob matcher against a declarative match
relation; incremental WebSocket framing over the connection's byte buffer against a parse of
the whole stream; the URL codec, with decoding in place.

**SMPP wire data.** A writer and a reader for PDUs given by a table of field kinds
(`SmppWire`), the objects around them (`SmppBuffer`, `SmppPdu`), the address lists
(`AddressLists`), the UTF-8/UCS-2 converters (`Utf8Ucs2`) and the long-message splitter
(`Splitter`). The PDU classes broadcast_sm, data_sm, cancel_sm and bind_receiver differ in
their field table only; one class parameterised by the table stands for all four.

**The delivery pipeline.** A state machine (`Pipeline`) of any number of clients, each with a
worker and a receiver thread, over data sources they may share. One step is one critical
section; a step between two locks leaves its message in a named local copy (slot, sweep copy,
receiver copy). Conservation, integrity, the counter laws, the races between acks and sweeps,
and the in-flight window are invariants over all runs. The source's classes (`DataSource`,
`SmppClient`, `Scheduling`) are separate objects whose methods are proved to do the machine's
steps. `Leaks` and `WindowLimits` build runs (with `ClientRuns`) that show where conservation and
the window bound end. `DeliveryIds` is the id that a delivery report is matched by. `Deadlock`
models the lock order of every thread's code, with the joins of `stop_all`.

## Conventions

- Octets are integers below 256, hash words are 32-bit vectors, and every 32- or 64-bit
  wrap-around of a counter or length is written out.
- Where the code reads memory past what it was given, the model's reader answers `Overrun`.
- A `write`, a `realloc`, an encoding that throws, and the clock are inputs. The clock does not
  go back and stays below 2^31 seconds.
- In the pipeline a message is identified by its sequence number. The theorems about copies
  hold for repeated numbers too; "exactly one place" is about a number accepted once.

## What the proofs found

The code is modelled as it is. Where a promise does not hold of it, the exact condition is
proved.

- The UTF-8 conversion loop never ends on a string with an undecodable character
  (`Utf8Ucs2.HaltsIff`, `DecodesIff`; the octet 0x80 is one, `StuckOnTail`).
- The UCS-2 branch of the splitter passes the front of the message where it computed a slice;
  parts add up to the message exactly when they repeat, and always for two parts
  (`Splitter.SplitLosesNothingIff`, `TwoPartsRepeat`, `FrontLosesSomething`).
- A message whose length rounds up to 256 parts gets the total 0 in its headers; from 256 full
  parts on, ASCII puts the whole rest into the last part and UCS-2 drops it
  (`Splitter.AsciiSoundIff`, `UcsSoundIff`).
- A data_sm with an address of 21 to 64 characters, which its setters allow, is rejected by a
  new data_sm object (`SmppWire.DataSmReadsBack`, `SmppPdu.SourceAddressReadBack`).
- Decoding into an object that already has TLVs leaves command_length too small for the next
  encode (`SmppPdu.Message.Decode`). A default-constructed broadcast_sm is such an object, and
  its own TLVs also satisfy the check for mandatory ones (`SmppPdu.ReadIntoDefault`).
- An empty destination list does not read back alone (`AddressLists.ListReadsBack`).
- The toolkit's MD5 block loop needs the buffered octets plus the input length below 2^32
  (`OsipMd5.GuardCannotWrap`, `GuardWraps`).
- Where delivery reports have decimal ids that are converted to hexadecimal, ids from 2^32 - 1
  on are taken for one, and a message acknowledged with leading zeros in its id is not found
  (`DeliveryIds.ToldApartIff`, `DecimalReportMatches`).
- A pending message is lost when a bind is not answered in time, because the slot is declared
  anew, or when the worker stops; one with empty content is not retried, because empty content
  means an empty slot; unanswered ones go with a client that `stop_all` drops. A message is
  doubled when its write fails after its answer was taken. These steps, exactly, lose and double
  messages, and so do exactly the runs that contain them (`Conservation.LosesExactly`,
  `DoublesExactly`, `RunHarmsExactly`, `OnePlaceExactly`); `Leaks` has a run from the start for
  each.
- The window bound is for a client with a source of its own, whose queue is drained between
  whole messages only. A drain in the middle of a long message breaks the order of its parts,
  and nothing but that and an incomplete message does (`Window.OrderKeptExactly`); with such
  drains, or with a second client on the source, any bound is exceeded
  (`WindowLimits.DrainingBreaksBound`, `SharingBreaksBound`, `SharingBreaksOrder`).
- `get_global_status` hands out one status even when asked for none
  (`Scheduling.AskedForNone`).

## Model

| member | source | states |
|---|---|---|
| HashStream.FoldAppend | public/algorithm_toolkit/md5.cpp:143-149 | compressing whole blocks and then more is compressing their concatenation, for any compression function |
| HashStream.FillBlock | public/algorithm_toolkit/md5.cpp:143-146 | topping the partial block up and compressing it moves the chain to the message with that part appended |
| HashStream.FoldNext | public/algorithm_toolkit/md5.cpp:148-149 | each turn of the block loop moves the chain 64 octets on |
| HashStream.LeftoverShort | public/algorithm_toolkit/md5.cpp:153-157 | input that does not fill the block changes only the tail |
| HashStream.LeftoverAt | public/algorithm_toolkit/md5.cpp:148-157 | from the last block boundary on, what is left is exactly the new tail |
| HashStream.CarryTests | public/mongoose/mongoose.cpp:2963-2965 | the two ways of noticing the carry (sum below the old word, sum below the addend) agree |
| HashStream.CounterCarries | public/algorithm_toolkit/md5.cpp:135-137 | the two 32-bit halves stay the bit count modulo 2^64, shift-out and carry included |
| HashStream.CounterIndex | public/algorithm_toolkit/md5.cpp:132 | the low half tells how many octets wait in the buffer |
| HashStream.PadOne | public/mongoose/mongoose.cpp:3002-3013 | a tail of at most 55 octets takes mark, zeros and length in one block (RFC 1321 sections 3.1 and 3.2) |
| HashStream.PadTwo | public/mongoose/mongoose.cpp:3005-3010 | a longer tail spills into a second block |
| HashStream.PadFillsBlocks | public/algorithm_toolkit/md5.cpp:174-180 | the padded message is a multiple of 64 octets |
| OsipMd5.TurnIsOperation | public/algorithm_toolkit/md5.cpp:85-103 | a round macro computes the RFC's operation, the additions regrouped |
| OsipMd5.Ff | public/algorithm_toolkit/md5.cpp:85-88 | one FF step is step i of the RFC's 64, registers renamed |
| OsipMd5.Ii | public/algorithm_toolkit/md5.cpp:100-103 | one II step is step i of the RFC's 64, registers renamed |
| OsipMd5.Round1a | public/algorithm_toolkit/md5.cpp:198-206 | steps 1 to 8 with the code's own words, shifts and constants are steps 1 to 8 of the RFC |
| OsipMd5.Round4b | public/algorithm_toolkit/md5.cpp:261-269 | steps 57 to 64 likewise |
| OsipMd5.Transform | public/algorithm_toolkit/md5.cpp:192-278 | the whole block transformation is the RFC 1321 section 3.4 compression |
| OsipMd5.Decode | public/algorithm_toolkit/md5.cpp:298-305 | octets to words is the little-endian reading |
| OsipMd5.Encode | public/algorithm_toolkit/md5.cpp:283-293 | words to octets is the little-endian writing, low octet first |
| OsipMd5.AddBits | public/algorithm_toolkit/md5.cpp:135-137 | the counter update adds 8 times the length modulo 2^64 |
| OsipMd5.Blocks | public/algorithm_toolkit/md5.cpp:148-149 | the block loop stops at the last boundary with the chain of everything before it |
| OsipMd5.Context.Init | public/algorithm_toolkit/md5.cpp:108-118 | a new context represents the empty message |
| OsipMd5.Context.Update | public/algorithm_toolkit/md5.cpp:124-158 | a context that represents m then represents m followed by the input, so chunking cannot matter |
| OsipMd5.Context.Final | public/algorithm_toolkit/md5.cpp:163-188 | the digest is the RFC 1321 digest of all input, and the context is wiped |
| OsipMd5.PaddingIsPad | public/algorithm_toolkit/md5.cpp:174-180 | the padding fed through Update is the RFC's, between 1 and 64 octets |
| OsipMd5.GuardCannotWrap | public/algorithm_toolkit/md5.cpp:148 | the 32-bit loop guard behaves as meant exactly when index + length stays below 2^32 |
| OsipMd5.GuardWraps | public/algorithm_toolkit/md5.cpp:148 | with one octet buffered and an input of 2^32 - 1 octets the loop guard lets one turn too many run |
| OsipMd5.CvtHex | public/algorithm_toolkit/md5.cpp:328-346 | two lower-case hex digits per octet, then a zero |
| Md5Spec.HexPairs | public/algorithm_toolkit/md5.cpp:328-346 | the digits come from 0123456789abcdef, high one first, octet by octet |
| OsipMd5.GenerateHashMd5 | public/algorithm_toolkit/md5.cpp:348-367 | the one-shot call returns the hex MD5 of its input |
| MongooseMd5.F1IsF | public/mongoose/mongoose.cpp:2858 | the web server's F1 is the RFC's F, bit for bit |
| MongooseMd5.F2IsG | public/mongoose/mongoose.cpp:2859 | F2 is G |
| MongooseMd5.F3IsH | public/mongoose/mongoose.cpp:2860 | F3 is H |
| MongooseMd5.F4IsI | public/mongoose/mongoose.cpp:2861 | F4 is I |
| MongooseMd5.TurnIsOperation | public/mongoose/mongoose.cpp:2863-2864 | MD5STEP computes the RFC's operation |
| MongooseMd5.ByteReverse | public/mongoose/mongoose.cpp:2844-2856 | every word is reversed in place on a big-endian host, nothing happens on another |
| MongooseMd5.Transform | public/mongoose/mongoose.cpp:2878-2958 | on either host the transformation of the in-memory words is the RFC's compression of the block |
| MongooseMd5.AddBits | public/mongoose/mongoose.cpp:2963-2966 | the counter update adds 8 times the length modulo 2^64 |
| MongooseMd5.Context.Init | public/mongoose/mongoose.cpp:2868-2876 | a new context represents the empty message |
| MongooseMd5.Context.Absorb | public/mongoose/mongoose.cpp:2979-2981 | reversing and compressing the full buffer applies the compression to it |
| MongooseMd5.Context.Blocks | public/mongoose/mongoose.cpp:2985-2991 | the block loop stops at the last boundary with the chain of everything before it |
| MongooseMd5.Context.Update | public/mongoose/mongoose.cpp:2960-2994 | m to m followed by the input, for every length an unsigned holds |
| MongooseMd5.Context.LastBlock | public/mongoose/mongoose.cpp:3014-3020 | storing the counter as two native words after a 14-word reversal compresses the RFC's last block |
| MongooseMd5.HostViewOfLast | public/mongoose/mongoose.cpp:3014-3018 | why reversing only 14 words is right on both hosts |
| MongooseMd5.Context.Final | public/mongoose/mongoose.cpp:2996-3024 | padding written in place gives the RFC 1321 digest |
| MongooseMd5.StoreDigest | public/mongoose/mongoose.cpp:3021-3022 | the digest octets are low octet first on either host |
| MongooseMd5.Bin2Str | public/mongoose/mongoose.cpp:3031-3039 | two lower-case hex digits per octet, then a zero |
| MongooseMd5.MgMd5 | public/mongoose/mongoose.cpp:3042-3059 | the hex MD5 of the concatenation of its strings |
| Md5Agreement.OsipDigest | public/algorithm_toolkit/md5.cpp:108-188 | Init, any number of Updates and Final compute the MD5 of the concatenated chunks |
| Md5Agreement.SameDigest | public/mongoose/mongoose.cpp:2858-3024 | both implementations give the same digest, whatever the chunks on each side and the byte order of the host |
| Sha1.ChooseIsCh | public/mongoose/mongoose.cpp:1726 | the choice in R0 and R1 is FIPS 180-4's Ch |
| Sha1.MostIsMaj | public/mongoose/mongoose.cpp:1729 | the majority in R3 is Maj |
| Sha1Spec.ConstantsAreRoots | public/mongoose/mongoose.cpp:1726-1730 | the four round constants are the integer parts of 2^30 times the roots of 2, 3, 5 and 10 |
| Sha1.TurnIsSum | public/mongoose/mongoose.cpp:1726-1730 | a register update is the standard's five-term sum |
| Sha1.SwapReverses | public/mongoose/mongoose.cpp:1718-1719 | the two rotations under masks reverse the octets of a word |
| Sha1.Blk0 | public/mongoose/mongoose.cpp:1715-1722 | word i of the schedule, swapped in place when the host is little-endian |
| Sha1.Blk | public/mongoose/mongoose.cpp:1724-1725 | word i from 16 on, computed in the 16-word ring |
| Sha1.RingRead | public/mongoose/mongoose.cpp:1724-1725 | the ring slots read are those of words i-3, i-8, i-14 and i-16, and the ring invariant moves on (section 6.1.3 against 6.1.2) |
| Sha1.RingStep | public/mongoose/mongoose.cpp:1724-1725 | overwriting slot i modulo 16 keeps the last 16 schedule words |
| Sha1.R0 | public/mongoose/mongoose.cpp:1726 | steps 0 to 15, registers renamed, w rotated |
| Sha1.R4 | public/mongoose/mongoose.cpp:1730 | steps 60 to 79 |
| Sha1.Transform | public/mongoose/mongoose.cpp:1738-1778 | the 80 renamed steps over the ring are the FIPS 180-4 compression |
| Sha1.Blocks | public/mongoose/mongoose.cpp:1801-1803 | the block loop stops at the last boundary with the chain of everything before it |
| Sha1.Context.Init | public/mongoose/mongoose.cpp:1780-1787 | a new context represents the empty message |
| Sha1.Context.Update | public/mongoose/mongoose.cpp:1789-1808 | m to m followed by the input: state, tail and bit count |
| Sha1.ZeroLoop | public/mongoose/mongoose.cpp:1820-1823 | the one-octet zero loop stops, and after exactly the zeros of section 5.1.1 |
| Sha1.Context.Final | public/mongoose/mongoose.cpp:1810-1831 | the FIPS 180-4 digest of all input, and the context is wiped |
| Sha1.StoreDigest | public/mongoose/mongoose.cpp:1825-1828 | the digest octets are high octet first |
| Sha1.Digest | public/mongoose/mongoose.cpp:1780-1831 | the digest does not depend on the chunks |
| Glob.Cross | public/mongoose/mongoose.cpp:1568-1580 | two matches of one pattern can be crossed; the reason the greedy search misses nothing longer |
| Glob.StarIsGreedy | public/mongoose/mongoose.cpp:1577-1580 | the largest run of the star that works gives the longest match |
| Glob.MatchStar | public/mongoose/mongoose.cpp:1568-1580 | from a star on: the longest match of the glob relation, -1 exactly when there is none |
| Glob.MatchOne | public/mongoose/mongoose.cpp:1561-1585 | one alternative: the longest match of the glob relation, -1 exactly when there is none |
| Glob.MatchPrefix | public/mongoose/mongoose.cpp:1551-1586 | alternatives are tried left to right until one takes something nonempty; the recursion ends |
| Glob.OutcomeMeaning | public/mongoose/mongoose.cpp:1555-1559 | a result n >= 0 is the length of a matched prefix; it is positive exactly when some alternative takes a nonempty prefix, and then the longest match of the first such one |
| Glob.PlainText | public/mongoose/mongoose.cpp:1581-1583 | without special signs a pattern takes its own text and nothing else, letter case aside |
| Glob.EachSign | public/mongoose/mongoose.cpp:1562-1576 | ? takes one octet, $ the end, * everything without a slash, ** everything |
| Glob.PartByPart | public/mongoose/mongoose.cpp:1561-1585 | a pattern is matched part by part wherever it is cut, so signs and texts together say what every pattern takes |
| WebSocket.MaskedTwice | public/mongoose/mongoose.cpp:1909-1913 | the mask undoes itself |
| WebSocket.ContentCarried | public/mongoose/mongoose.cpp:1905-1913 | octet i of what is handed over is wire octet i exclusive or key octet i modulo 4, as 8-bit words |
| WebSocket.EncodeCarries | public/mongoose/mongoose.cpp:1885-1913 | a frame on the wire announces its length in the form it has, and carries key and masked payload where sections 5.2 and 5.3 of RFC 6455 put them |
| WebSocket.FrameStable | public/mongoose/mongoose.cpp:1888-1903 | octets that arrive behind a complete frame change nothing about it |
| WebSocket.ParseChunk | public/mongoose/mongoose.cpp:2343-2346 | parsing in two goes is parsing at once |
| WebSocket.ChunkingIrrelevant | public/mongoose/mongoose.cpp:2343-2346 | for any chunks, frames and leftover are those of the whole stream |
| WebSocket.ParseEncoded | public/mongoose/mongoose.cpp:1879-1923 | the front frame of a stream, in any length form, masked or not (sections 5.2 and 5.3 of RFC 6455), is delivered unmasked and removed |
| WebSocket.PrefixIncomplete | public/mongoose/mongoose.cpp:1902-1903 | part of a frame is never taken for a whole one |
| WebSocket.ParseStream | public/mongoose/mongoose.cpp:2343-2346 | a stream of frames is delivered frame by frame, in order |
| WebSocket.Reassembly | public/mongoose/mongoose.cpp:1879-1923 | whole frames and part of one, in any chunks: exactly the whole frames are delivered, the part stays buffered |
| WebSocket.IoBuf.Spool | public/mongoose/mongoose.cpp:555-579 | appends to the buffer, which may move; all or nothing when memory runs out |
| WebSocket.IoBuf.DiscardLeading | public/mongoose/mongoose.cpp:853-858 | drops the first n octets if there are that many |
| WebSocket.Connection.Unmask | public/mongoose/mongoose.cpp:1909-1913 | in-place exclusive or with the four key octets |
| WebSocket.Connection.ReadHeader | public/mongoose/mongoose.cpp:1885-1900 | header and payload length as the three forms define them |
| WebSocket.Connection.Payload | public/mongoose/mongoose.cpp:1905-1913 | the payload of the front frame, unmasked where it lies, the rest untouched |
| WebSocket.Connection.DeliverFrame | public/mongoose/mongoose.cpp:1879-1923 | hands over the front frame if and only if header and announced payload are all there, drops exactly it, and each octet is the wire octet under its octet of the key |
| WebSocket.Connection.DeliverAll | public/mongoose/mongoose.cpp:2343-2346 | the loop hands over every complete frame and ends |
| WebSocket.Connection.Receive | public/mongoose/mongoose.cpp:2343-2346 | one chunk, spooled and delivered from, is one turn of Feed |
| WebSocket.PrefixSane | public/mongoose/mongoose.cpp:1885-1903 | whatever has come of a stream of legal frames never shows a length that the loop cannot hold |
| WebSocket.SaneRest | public/mongoose/mongoose.cpp:2343-2346 | nor does what stays buffered once the complete frames are handed over |
| WebSocket.ReceiveAll | public/mongoose/mongoose.cpp:2343-2346 | a new connection fed whole legal frames and part of one, in any chunks, hands over exactly the whole frames, unmasked and in order, and keeps the part |
| WebSocket.WriteFrame | public/mongoose/mongoose.cpp:1925-1966 | appends one final unmasked frame: opcode, shortest length form with the number of octets, the octets themselves |
| WebSocket.WriteThenDeliver | public/mongoose/mongoose.cpp:1925-1966 | what was written is delivered, in all three length forms |
| Url.SpreadIsEncoding | public/mongoose/mongoose.cpp:2482-2500 | the buffer receives the whole escaped string exactly when it fits before the zero |
| Url.Encode | public/mongoose/mongoose.cpp:2482-2500 | the exact memory afterwards, holes of unfitting escapes included |
| Url.EncodeFits | public/mongoose/mongoose.cpp:2482-2500 | with room, the escaped string, a zero, and untouched memory behind |
| Url.EncodedLength | public/mongoose/mongoose.cpp:2489-2496 | an escaped string is at most three times as long |
| Url.EscapedAs | public/mongoose/mongoose.cpp:2482-2497 | letters, digits and nine signs stay, every other octet becomes a percent sign and two lower-case digits |
| Url.HexValueIs | public/mongoose/mongoose.cpp:1438 | digits have their value in either letter case |
| Url.MeantStandsFor | public/mongoose/mongoose.cpp:1440-1451 | a percent sign with two digits stands for one octet; a plus sign is a blank in forms and itself elsewhere |
| Url.DecodeOne | public/mongoose/mongoose.cpp:1440-1454 | one pass stores what the position stands for: an escape in either letter case, a plus sign by mode, or a plain octet |
| Url.Decode | public/mongoose/mongoose.cpp:1435-1458 | the unescaped string and a zero, cut to the buffer, nothing behind them touched, and -1 exactly when it was cut; source and destination may be the same array |
| Url.DecodeUri | public/mongoose/mongoose.cpp:1505-1506 | a request path is unescaped in place, always in full |
| Url.RoundTrip | public/mongoose/mongoose.cpp:1435-1458 | unescaping an escaped string gives it back, in both form modes |
| SmppWire.TextIsTerminated | public/smppparser/aux_types.hpp:819-825 | valid_length returns a text exactly when its terminator is within the limit |
| SmppWire.AddressIff | public/smppparser/aux_types.cpp:28-39 | an SME address is read exactly when at least three octets are left and it is there |
| SmppWire.FieldIff | public/smppparser/broadcast_sm.cpp:149-192 | a field is read exactly when it is on the wire, within its limit, and within command_length if that is checked |
| SmppWire.FieldsForward | public/smppparser/broadcast_sm.cpp:149-192 | the fields of any table are read back from their encoding |
| SmppWire.FieldsBackward | public/smppparser/broadcast_sm.cpp:149-192 | fields that were read encode to the octets they were read from |
| SmppWire.TlvIff | public/smppparser/header.cpp:53-77 | a TLV is read exactly when its tag, length and value are there within command_length |
| SmppWire.FieldStands | public/smppparser/aux_types.cpp:28-39 | the octets a field was read from: text before its zero, ton, npi and address |
| SmppWire.TlvStands | public/smppparser/header.cpp:53-77 | tag and length are the first two words, the value is the octets behind them |
| SmppWire.TlvsForward | public/smppparser/header.cpp:49-79 | a TLV list is read back from its encoding |
| SmppWire.TlvsBackward | public/smppparser/header.cpp:49-79 | a TLV list that was read encodes to the octets it was read from, up to command_length exactly |
| SmppWire.WordIff | public/smppparser/aux_types.hpp:836-867 | a header word reader returns the big-endian value |
| SmppWire.HeaderIff | public/smppparser/header.hpp:122-138 | the four header words are read exactly as written |
| SmppWire.ReadBack | public/smppparser/broadcast_sm.cpp:112-208 | decode(encode(p)) = p, whatever follows in memory, for every table |
| SmppWire.WriteBack | public/smppparser/broadcast_sm.cpp:112-208 | re-encoding an accepted buffer reproduces its first command_length octets, TLVs included |
| SmppWire.AcceptsExactlyEncodings | public/smppparser/bind_receiver.cpp:85-150 | a decoder accepts a buffer if and only if it starts with the encoding of a PDU of its layout |
| SmppWire.LengthSplits | public/smppparser/broadcast_sm.cpp:84-88 | command_length without TLVs is MinLength plus the variable lengths |
| SmppWire.MinLengths | public/smppparser/broadcast_sm.hpp:51 | the four tables have MinLength 27, 26, 24 and 23 (section 3.2 of SMPP v3.4) |
| SmppWire.FieldsInOrder | public/smppparser/broadcast_sm.hpp:33-41 | the fields of the four PDUs in their order, with the longest text each takes |
| SmppWire.TablesEndChecked | public/smppparser/bind_receiver.cpp:130-148 | the last field of each table is compared with command_length, also where octets before it are not, so nothing past command_length is accepted |
| SmppWire.DataSmReadsBack | public/smppparser/data_sm.hpp:96-103 | a data_sm whose addresses were set long is read back by a new object exactly when both have at most 20 characters, and is an error otherwise |
| SmppBuffer.NetworkOrder32 | public/smppparser/aux_types.hpp:897-905 | hton32 followed by a native store is big-endian on either host |
| SmppBuffer.NetworkOrder16 | public/smppparser/aux_types.hpp:920-925 | hton16 likewise |
| SmppBuffer.Buffer.Reset | public/smppparser/buffer.hpp:59-75 | a fresh buffer of the given size, offset 0 |
| SmppBuffer.Buffer.AppendWord | public/smppparser/buffer.hpp:79-84 | appends the four octets in network order |
| SmppBuffer.Buffer.AppendText | public/smppparser/buffer.hpp:105-111 | appends the characters and a zero |
| SmppBuffer.Buffer.AppendAddress | public/smppparser/buffer.hpp:125-131 | appends ton, npi and address |
| SmppBuffer.Buffer.AppendTlv | public/smppparser/tlv.hpp:119-123 | appends tag, length and value |
| SmppPdu.Message.constructor | public/smppparser/broadcast_sm.cpp:55-95 | MinLength and the sum of the lengths make command_length right |
| SmppPdu.Message.SetText | public/smppparser/broadcast_sm.hpp:84-96 | the string setters keep command_length right, and refuse a long text before changing anything |
| SmppPdu.Message.SetAddress | public/smppparser/data_sm.hpp:88-103 | the address setters keep command_length right and take over the address limit |
| SmppPdu.Message.SetOctet | public/smppparser/broadcast_sm.hpp:134 | the octet setters leave command_length alone |
| SmppPdu.Message.InsertAt | public/smppparser/header.hpp:152-155 | inserting a TLV adds its length and four |
| SmppPdu.Message.InsertBefore | public/smppparser/header.cpp:102-113 | before the first TLV with the tag, or an error and no change |
| SmppPdu.Message.InsertAfter | public/smppparser/header.cpp:85-96 | behind the last TLV with the tag, or an error and no change |
| SmppPdu.Message.RemoveTlv | public/smppparser/header.hpp:292-308 | exactly the TLVs with the tag go, in order, and command_length shrinks by theirs |
| SmppPdu.WithoutJoin | public/smppparser/header.hpp:292-308 | removal goes TLV by TLV, so those that stay keep their order |
| SmppPdu.Message.Encode | public/smppparser/broadcast_sm.cpp:112-131 | encode writes exactly command_length octets: the four header words in their places, the fields, the TLVs |
| SmppPdu.Message.Decode | public/smppparser/broadcast_sm.cpp:136-208 | decode agrees with the reader; afterwards command_length is right exactly when the object held no TLVs before |
| SmppPdu.ValidLength | public/smppparser/aux_types.hpp:819-825 | looks at no more than the limit |
| SmppPdu.ReadOne | public/smppparser/data_sm.cpp:111-146 | reading one field and its length check |
| SmppPdu.LengthAfterReading | public/smppparser/header.cpp:74-76 | TLVs from before a decode are not in the command_length it reads |
| SmppPdu.SourceAddressReadBack | public/smppparser/data_sm.hpp:96-103 | a source address set on a new data_sm, encoded and read by another new one, arrives up to 20 characters and is an error from 21 on |
| SmppPdu.NewBroadcastSm | public/smppparser/broadcast_sm.cpp:26-37 | the default constructor inserts four TLVs and keeps command_length right |
| SmppPdu.ReadIntoDefault | public/smppparser/broadcast_sm.cpp:136-208 | on such an object the check for mandatory TLVs lets everything pass, and the next encode writes 25 octets more than command_length |
| AddressLists.EntryIff | public/smppparser/aux_types.cpp:53-78 | an entry is read exactly when it is there and ends within the octets left |
| AddressLists.EntryStands | public/smppparser/aux_types.cpp:53-78 | the octets an entry was read from: flag 1 and an address, flag 2 and a name, or an address and its error code |
| AddressLists.EntriesIff | public/smppparser/aux_types.cpp:53-79 | a run of n entries is read exactly when their encodings stand there one after the other and end within the octets left |
| AddressLists.ListIff | public/smppparser/aux_types.cpp:44-101 | a fresh decoder accepts exactly the encodings of lists of up to 255 fitting entries, and octet_count is what it consumed |
| AddressLists.ListReadsBack | public/smppparser/aux_types.cpp:47-48 | handed its own encoding, every list comes back except the empty destination list, which is too short |
| AddressLists.AddressList.Add | public/smppparser/aux_types.hpp:376-396 | add returns by how much the encoding grew, 0 exactly when the list was full |
| AddressLists.AddressList.AddAll | public/smppparser/aux_types.hpp:376-396 | what any additions in a row return sums up to the growth of the encoding |
| AddressLists.AddThenRead | public/smppparser/aux_types.cpp:85-101 | added, encoded and read back: the same entries and octet_count one more than the sum that add returned, exactly when all entries fit and the list is not an empty destination list |
| AddressLists.AddressList.AppendTo | public/smppparser/buffer.hpp:134-163 | the buffer receives the count octet and the entries |
| AddressLists.AddressList.AppendEntry | public/smppparser/buffer.cpp:43-67 | flag and entry, or address and big-endian error |
| AddressLists.DecodeEntry | public/smppparser/aux_types.hpp:444-451 | one entry, with the length checks where the source has them |
| AddressLists.AddressList.Decode | public/smppparser/aux_types.cpp:85-101 | reads on from octet_count; entries past the 255th are dropped |
| Utf8Ucs2.CharRoundTrip | public/smpp_datacoding_convert/smpp_datacoding_toolkit.cpp:79-104 | a scalar decodes from its UTF-8 form and the position moves past it |
| Utf8Ucs2.FormRoundTrip | public/smpp_datacoding_convert/smpp_datacoding_toolkit.cpp:17-53 | a well-formed character (section 4 of RFC 3629) decodes to the bits its octets carry, and encodes back to the same octets |
| Utf8Ucs2.HaltsIff | public/smpp_datacoding_convert/smpp_datacoding_toolkit.cpp:59-76 | the conversion loop reaches the end exactly when every character decodes; an undecodable one never lets it advance |
| Utf8Ucs2.DecodesIff | public/smpp_datacoding_convert/smpp_datacoding_toolkit.cpp:79-104 | those are the strings made of lead octets followed by as many octets other than zero as they ask for |
| Utf8Ucs2.StuckOnTail | public/smpp_datacoding_convert/smpp_datacoding_toolkit.cpp:59-76 | on the single octet 0x80 no number of turns moves the position |
| Utf8Ucs2.ConvertUtf8 | public/smpp_datacoding_convert/smpp_datacoding_toolkit.cpp:54-78 | on such strings the loop ends with the units of the string |
| Utf8Ucs2.UnitsOfUtf8 | public/smpp_datacoding_convert/smpp_datacoding_toolkit.cpp:54-118 | units come back from their UTF-8 form, which is well formed |
| Utf8Ucs2.Utf8OfUnits | public/smpp_datacoding_convert/smpp_datacoding_toolkit.cpp:54-118 | a well-formed string comes back from its units, which are scalars |
| Utf8Ucs2.SwapsCancel | public/smpp_datacoding_convert/smpp_datacoding_toolkit.cpp:119-134 | the two byte swaps cancel on a little-endian host; on another only for units with equal octets |
| Utf8Ucs2.InNetworkOrder | public/smpp_datacoding_convert/smpp_datacoding_toolkit.cpp:119-134 | on a little-endian host each unit is stored high octet first; it is read that way on any host |
| Utf8Ucs2.Utf8ToUcs2 | public/smpp_datacoding_convert/smpp_datacoding_toolkit.cpp:135-164 | the octets stored, and nothing behind them |
| Utf8Ucs2.Ucs2ToUtf8 | public/smpp_datacoding_convert/smpp_datacoding_toolkit.cpp:166-185 | the UTF-8 form of the units, up to its first zero, through a zeroed scratch buffer that is large enough |
| Utf8Ucs2.MemoryRoundTrip | public/smpp_datacoding_convert/smpp_datacoding_toolkit.cpp:135-185 | on a little-endian host the two conversions through memory give a well-formed string back |
| Splitter.PureMeansAscii | public/smpp_datacoding_convert/smpp_datacoding_toolkit.cpp:187-198 | on well-formed UTF-8 the 0xA0 threshold is the ASCII test |
| Splitter.IsPureAscii | public/smpp_datacoding_convert/smpp_datacoding_toolkit.cpp:187-198 | true exactly when no octet before the first zero is 0xA0 or more |
| Splitter.CountIs | public/smpp_datacoding_convert/smpp_datacoding_toolkit.cpp:247-265 | the number of parts and the part of the message they cover, with the cut at 255 |
| Splitter.Segments | public/smpp_datacoding_convert/smpp_datacoding_toolkit.cpp:247-265 | the loop-free computation gives that count and that part |
| Splitter.SplitLongSm | public/smpp_datacoding_convert/smpp_datacoding_toolkit.cpp:221-332 | which of the two splits is made and every part's content; data coding 0 or 8 by the octets, one reference for several parts and 0 for a single one, total and index; a single part up to 160 octets or 70 units, else parts of 153 octets that add up |
| Splitter.PureIsSingleCoded | public/smpp_datacoding_convert/smpp_datacoding_toolkit.cpp:187-198 | the choice of coding looks at the octets before the first zero only |
| Splitter.UcsPartHolds | public/smpp_datacoding_convert/smpp_datacoding_toolkit.cpp:306-323 | each UCS-2 part but the last holds the first 67 units, the last those from its own position on |
| Splitter.AsciiLosesNothing | public/smpp_datacoding_convert/smpp_datacoding_toolkit.cpp:267-297 | the parts put together are the message, for any length |
| Splitter.AsciiSoundIff | public/smpp_datacoding_convert/smpp_datacoding_toolkit.cpp:247-290 | total, indices and 153-octet segments are right (section 9.2.3.24.1 of 3GPP TS 23.040) exactly up to 39015 octets |
| Splitter.FrontAddsUpIff | public/smpp_datacoding_convert/smpp_datacoding_toolkit.cpp:308-323 | passing the front of the message instead of the slice goes unnoticed exactly for repeating messages |
| Splitter.UcsLosesNothingIff | public/smpp_datacoding_convert/smpp_datacoding_toolkit.cpp:299-325 | for well-formed text, exactly when the UCS-2 parts put together are the message; were each part given its own slice, always up to 17151 units |
| Splitter.SplitLosesNothingIff | public/smpp_datacoding_convert/smpp_datacoding_toolkit.cpp:221-332 | what SplitLongSm returns on a little-endian host, put together, is the message exactly when that is ASCII, single, or has at most 17151 units and full parts that repeat the first |
| Splitter.UcsSoundIff | public/smpp_datacoding_convert/smpp_datacoding_toolkit.cpp:247-265 | total and indices are right except where the count comes out as 256, which the octet turns into 0 |
| Splitter.UcsShort | public/smpp_datacoding_convert/smpp_datacoding_toolkit.cpp:306-323 | no UCS-2 part has more than 67 units |
| Splitter.TwoPartsRepeat | public/smpp_datacoding_convert/smpp_datacoding_toolkit.cpp:306-323 | messages of two parts are always right |
| Splitter.FrontLosesSomething | public/smpp_datacoding_convert/smpp_datacoding_toolkit.cpp:320 | a message of 135 units whose parts do not add up to it |
| Conservation.AcceptBalance | public/client_common/client_data_source_manager.cpp:79-88 | add_smis moves messages from the caller to the queue, one for one |
| Conservation.RejectBalance | public/smppclient/smppclient.cpp:77-86 | messages submitted with a failure reason go to the delivered list, one for one |
| Conservation.GetBalance | public/smppclient/smppclient.cpp:197-219 | taking a message off the queue into the slot |
| Conservation.EncodeBalance | public/smppclient/smppclient.cpp:586-664 | the slot goes to the waiting-ack list, or stays when encoding throws |
| Conservation.WriteBalance | public/smppclient/smppclient.cpp:665-678 | after a failed write the message is back in the slot only |
| Conservation.BindTimeoutBalance | public/smppclient/smppclient.cpp:149-187 | a pending slot that is declared anew is accounted as lost |
| Conservation.WaitSweepBalance | public/smppclient/smppclient.cpp:961-983 | the sweep moves messages to the ack-timeout list, one for one |
| Conservation.TimeoutSweepBalance | public/smppclient/smppclient.cpp:989-1014 | the sweep fails messages, one for one |
| Conservation.DlrSweepBalance | public/client_common/client_data_source_manager.cpp:227-251 | the delivery timeout fails messages, one for one |
| Conservation.AckLookBalance | public/smppclient/smppclient.cpp:907-926 | set_ack's first lookup moves a message into its copy |
| Conservation.AckLookAgainBalance | public/smppclient/smppclient.cpp:1019-1038 | set_ack's second lookup likewise |
| Conservation.AckPutBalance | public/smppclient/smppclient.cpp:107-114 | the answered message goes to delivering or delivered |
| Conservation.DlrTakeBalance | public/client_common/client_data_source_manager.cpp:145-166 | a delivery report takes its message out of the delivering list |
| Conservation.DlrPutBalance | public/client_common/client_data_source_manager.cpp:173-178 | and puts it into the delivered list |
| Conservation.PullBalance | public/client_common/client_data_source_manager.cpp:252-274 | statuses handed out leave the delivered list, one for one |
| Conservation.DrainBalance | public/client_common/client_data_source_manager.cpp:294-303 | draining empties the queue into the caller's vector |
| Conservation.BalanceKept | public/smppclient/smppclient.cpp:144-264 | no step of any thread changes the number of copies of a message, the history included |
| Conservation.StepConserves | public/smppclient/smppclient.cpp:144-264 | nor in a system of many clients that may share sources |
| Conservation.Conserved | public/smppclient/smppclient.cpp:144-264 | in every interleaving, copies inside, pulled and drained plus those lost equal those accepted plus those doubled |
| Conservation.DestroyBalance | public/client_common/clients_manager.cpp:215-223 | the unanswered messages of a client that stop_all drops are accounted as lost |
| Conservation.LosesExactly | public/smppclient/smppclient.cpp:149-187 | a step loses messages exactly when it declares a pending slot anew or gives it up, drops a client with unanswered messages, or has nothing to retry because the content is empty |
| Conservation.DoublesExactly | public/smppclient/smppclient.cpp:666-678 | a step doubles a message exactly when its write fails, there is content to retry, and its waiting-ack entry is gone |
| Conservation.DoublesAfterAnswer | public/smppclient/smppclient.cpp:666-678 | that entry is gone only because the answer was taken |
| Conservation.RunHarmsExactly | public/smppclient/smppclient.cpp:144-264 | something was lost, or doubled, in a run exactly when one of its steps is such a step |
| Conservation.OnePlaceExactly | public/smppclient/smppclient.cpp:92-264 | a message accepted once is in exactly one place, in any reachable state, exactly when it was lost as often as doubled |
| Conservation.CarefulIsHarmless | public/smppclient/smppclient.cpp:144-264 | the conditions of the next row rule those steps out |
| Conservation.ExactlyOnePlace | public/smppclient/smppclient.cpp:92-264 | with no bind timeout or stop on a pending slot, no client dropped with unanswered messages, no empty content accepted and no write failing after its answer, a message accepted once is in exactly one place in every reachable state |
| Leaks.PendingIsLost | public/smppclient/smppclient.cpp:149-187 | for any message with content a run from the start: accepted once, written in vain, bind not answered, and it is nowhere |
| Leaks.EmptyIsNotRetried | public/smppclient/smppclient.cpp:197-246 | for any message without content a run that ends with it nowhere after one failed write |
| Leaks.AnsweredIsDoubled | public/smppclient/smppclient.cpp:665-678 | for any message with content a run that ends with it in two places |
| Leaks.UnansweredIsDropped | public/smppclient/smppclient.cpp:20-30 | for any message a run that ends with it nowhere because its client was dropped |
| Integrity.NothingRewritten | public/smppclient/smppclient.cpp:92-264 | every message held or handed out has the number, content and part fields of an accepted one |
| Counters.StepCounts | public/client_common/clients_statistic.hpp:78-140 | each step keeps each counter law between the counters and one source |
| Counters.CountersAgree | public/client_common/clients_statistic.hpp:78-140 | delivered + failed = listed + pushed, received = queued + taken + drained, mobile originated = listed + pushed, over all sources, in every reachable state |
| AckRaces.FirstLook | public/smppclient/smppclient.cpp:92-95 | the first lookup finds a message in flight or leaves it in the other list |
| AckRaces.TimedKept | public/smppclient/smppclient.cpp:586-664 | no step leaves an unanswered message with a time ahead of the clock |
| AckRaces.MissStays | public/smppclient/smppclient.cpp:984-1014 | between the two lookups exactly the timeout sweep that reaches an expired message with the number takes it away |
| AckRaces.MissOverRun | public/smppclient/smppclient.cpp:92-95 | over any steps of all threads between the lookups the message stays in the second list, unless one of them is such a sweep |
| AckRaces.AckFinds | public/smppclient/smppclient.cpp:92-121 | in every reachable state an answer to a message in flight finds it, whatever steps come between the two lookups, unless one of them is this client's timeout sweep failing it when more than five times the limit, in seconds, has passed since it was submitted |
| AckRaces.SweptKept | public/smppclient/smppclient.cpp:194-196 | what a round of sweeps has passed is young enough, step by step |
| AckRaces.SweepsBound | public/smppclient/smppclient.cpp:194-196 | after a round of sweeps begun at t nothing in waiting-ack is older than the limit at t, nothing in ack-timeout older than five times it |
| Window.ChainAppend | public/client_common/client_data_source_manager.cpp:79-88 | a queue of whole messages stays one when whole messages are added |
| Window.GetInOrder | public/smppclient/smppclient.cpp:197-219 | the worker takes the next part of a begun message, or a new one when fewer than eight wait |
| Window.TakesExactly | public/smppclient/smppclient.cpp:197-219 | with nothing in hand the worker takes the front of the queue exactly when fewer than eight messages wait or a long one is not through |
| Window.InWindowKept | public/smppclient/smppclient.cpp:197-246 | every step keeps size <= 7 + k with part k out |
| Window.WindowBound | public/smppclient/smppclient.cpp:956-960 | for a client with a source of its own, over all runs that drain only between whole messages, resends and reconnects included: at most 7 + n messages wait, n the longest message's parts |
| Window.OrderKeptExactly | public/client_common/client_data_source_manager.cpp:294-303 | a step keeps the order of parts exactly when it does not drain in the middle of a long message or accept an incomplete or longer one |
| WindowLimits.DrainingBreaksBound | public/client_common/client_data_source_manager.cpp:294-303 | for every bound a run from the start, with drains in the middle of long messages, after which more messages wait |
| WindowLimits.SharingBreaksBound | public/smppclient/smppclient.cpp:197-219 | for every bound a run with two clients on one source and no drain after which more messages of one of them wait |
| WindowLimits.SharingBreaksOrder | public/smppclient/smppclient.cpp:197-219 | a run with two clients on one source after which the queue does not go on where the first client left off |
| DataSource.ClientDataSource.AddSmis | public/client_common/client_data_source_manager.cpp:79-88 | the messages join the queue in order and the received counter grows by their number, as the machine's step says |
| DataSource.ClientDataSource.GetToSubmit | public/client_common/client_data_source_manager.cpp:90-102 | false exactly when the queue is empty; else its front leaves it and is counted, as in the machine |
| DataSource.ClientDataSource.SmIsDelivering | public/client_common/client_data_source_manager.cpp:104-120 | the message joins the delivering list, stamped with the time, and nothing else changes |
| DataSource.ClientDataSource.SmIsDelivered | public/client_common/client_data_source_manager.cpp:121-185 | the first message that the report is for moves to the end of the delivered list and is counted: its id is the reported one, letter case aside, or with conversion configured the hexadecimal numeral of the reported number; without one nothing changes |
| DeliveryIds.IsForIff | public/client_common/client_data_source_manager.cpp:121-154 | what a converted, an unconverted and a non-numeric id is compared with, in terms of texts and numbers |
| DeliveryIds.HexTextIff | public/algorithm_toolkit/algorithm.hpp:535-543 | the converted text is, letter case aside, the one hexadecimal numeral of the number without leading zeros |
| DeliveryIds.DecimalReportMatches | public/client_common/client_data_source_manager.cpp:126-154 | a report with a decimal id is for exactly the messages whose id is that numeral, numbers from 2^32 - 1 on being one |
| DeliveryIds.ToldApartIff | public/algorithm_toolkit/algorithm.hpp:342-357 | two decimal ids are taken for one exactly when their numbers are equal or both at least 2^32 - 1 |
| DataSource.ClientDataSource.MoReceived | public/client_common/client_data_source_manager.cpp:186-209 | the mobile originated message joins its list and is counted |
| DataSource.ClientDataSource.GetMos | public/client_common/client_data_source_manager.cpp:210-226 | the whole list is handed out in order, emptied and counted as pushed |
| DataSource.ReceiveThenGet | public/client_common/client_data_source_manager.cpp:186-226 | mobile originated messages are handed out in the order they arrived |
| DataSource.ClientDataSource.ProcessWaitingDlrTimeout | public/client_common/client_data_source_manager.cpp:227-251 | messages more than the limit old, in seconds, move to the end of the delivered list, in order, each counted as failed; those up to the limit old stay |
| DataSource.ClientDataSource.GetGlobalStatus | public/client_common/client_data_source_manager.cpp:252-274 | a prefix of the delivered list is handed out and counted as pushed: as many as asked, but at least one if there is any |
| DataSource.ClientDataSource.SubmitFailed | public/client_common/client_data_source_manager.cpp:276-283 | the message joins the delivered list and is counted as failed |
| DataSource.ClientDataSource.GetAllToSubmit | public/client_common/client_data_source_manager.cpp:294-303 | the queue is appended to the caller's vector in order and emptied |
| DataSource.KeptAndDropped | public/client_common/client_data_source_manager.cpp:227-251 | a sweep splits a list into what it keeps and what it takes, losing nothing |
| DataSource.SweptByAge | public/client_common/client_data_source_manager.cpp:227-251 | what a sweep keeps is at most the limit old, what it takes is older, in plain arithmetic |
| DataSource.SweptInOrder | public/client_common/client_data_source_manager.cpp:227-251 | a sweep decides message by message, so both sides keep their order |
| Messages.ExpiredIff | public/smppclient/smppclient.cpp:968-969 | on a clock before 2^31 seconds the cast difference passes the limit exactly when the age does |
| SmppClient.Unanswered.GetWaitingAckSmi | public/smppclient/smppclient.cpp:907-926 | the first message with the number, erased |
| SmppClient.Unanswered.GetAckTimeoutSmi | public/smppclient/smppclient.cpp:1019-1038 | likewise from the other list |
| SmppClient.Unanswered.TooManyWaitingAckSmis | public/smppclient/smppclient.cpp:956-960 | eight or more |
| SmppClient.Unanswered.SetAck | public/smppclient/smppclient.cpp:92-121 | the first message with the number, of waiting-ack or else of ack-timeout, leaves its list, gets the id, and joins the end of delivering with the time or on failure of delivered; unknown numbers change nothing; as the receiver's machine steps in a row |
| SmppClient.AckThenReport | public/smppclient/smppclient.cpp:92-121 | a message acknowledged under an id is found by a report for that id and no other message, and ends as delivered |
| SmppClient.Unanswered.Submit | public/smppclient/smppclient.cpp:586-686 | true exactly when encoding and write succeed; then the message, stamped with the time, is last in the waiting-ack list, after a failed write the first entry with its number is gone; as the worker's machine steps in a row |
| SmppClient.Unanswered.ProcessWaitingAckSmis | public/smppclient/smppclient.cpp:961-983 | messages more than the limit old, in seconds, move to the end of the ack-timeout list, in order; those up to the limit old stay |
| SmppClient.Unanswered.ProcessAckTimeoutSmis | public/smppclient/smppclient.cpp:989-1014 | messages more than five times the limit old, in seconds, are failed, in order; those up to that stay |
| SmppClient.WaitSweepIs | public/smppclient/smppclient.cpp:961-983 | the machine's item steps, run to the end without interference, keep and move exactly what the loop does |
| SmppClient.TimeoutSweepIs | public/smppclient/smppclient.cpp:989-1014 | the machine's item steps, run to the end without interference, keep and fail exactly what the loop does |
| SmppClient.DlrSweepIs | public/client_common/client_data_source_manager.cpp:227-251 | the machine's item steps, run to the end without interference, keep and fail exactly what the loop does |
| Scheduling.ClientsManager.SubmitSmis | public/client_common/clients_manager.cpp:149-179 | succeeds exactly when some client is able, and extends only the queue of the first able one counting up from the turn modulo the number of clients, or with a failure reason only its list of statuses |
| Scheduling.ClientsManager.SubmitFailed | public/smppclient/smppclient.cpp:76-86 | with a failure reason the messages join the delivered list one by one, in order |
| Scheduling.ClientsManager.Scan | public/client_common/clients_manager.cpp:156-174 | the cyclic scan ends, after one round at most |
| Scheduling.ClientsManager.SubmitRound | public/client_common/clients_manager.cpp:149-179 | of consecutive submits with all n clients able, any two less than n apart reach different clients, and each source gets its batches in order |
| Scheduling.ClientsManager.GetGlobalStatus | public/client_common/clients_manager.cpp:180-199 | the loop is the specification's collection in client order |
| Scheduling.CollectsExactly | public/client_common/clients_manager.cpp:180-199 | asked for at least one with an empty output, exactly min(to_get, statuses held), shared sources counted once |
| Scheduling.CollectsPrefixes | public/client_common/clients_manager.cpp:180-199 | the answer is a first-in-first-out prefix of each source, in client order |
| Scheduling.CollectsInTurn | public/client_common/clients_manager.cpp:180-199 | with a source for each client the answer is the front of all statuses, client after client, up to the number asked for |
| Scheduling.CollectsEnough | public/client_common/clients_manager.cpp:180-199 | with entries there already, clients are asked until there are enough together or none has any left |
| Scheduling.AskedForNone | public/client_common/client_data_source_manager.cpp:260-271 | asked for none, the first client still gives one |
| Deadlock.CodeSafe | public/smppclient/smppclient.cpp:961-1018 | every call of every thread takes locks in rank order above what it holds, the starting and the destruction of clients included |
| Deadlock.RanksRise | public/client_common/clients_manager.cpp:215-223 | along a chain of waiting threads the ranks rise, the joins in stop_all included |
| Deadlock.NoCircularWait | public/client_common/clients_manager.cpp:215-223 | no thread waits, over any number of others, for itself |
| Deadlock.DeadlockFree | public/client_common/clients_manager.cpp:126-223 | in no reachable state is there a circular wait |
| Deadlock.Progress | public/client_common/client_data_source_manager.cpp:121-303 | in every reachable state a thread that cannot go on waits for one that can |

## Left out

- Sockets, asio, threads, sleeps and speed control; `write` and time are inputs.
- `connections_manager`, `protocol_data_source_manager`, the server, and HTTP apart from the parts above.
- The databases: `record_dlr_to_db` and `record_mos_to_db` do nothing in the pipeline; `Deadlock` gives them a leaf lock.
- JSON, base64, configuration, and all PDUs other than the four tables and the two lists; they are further instances of the same codec.
- SmppPdu.Message.Decode: after a decode that throws, fields already read keep their new values; the contract says nothing about that state.
- The broadcast_sm setters that remove a TLV and insert another; each is two modelled operations in a row.
- SmppPdu.Message.Encode: fields are a sequence walked by a loop, where each source class has named fields and straight-line code.
- Strings with embedded zeros in PDU fields and destination lists, which a C string cannot hold.
- PDUs whose length reaches 2^32 are excluded by precondition.
- Four-octet UTF-8 and surrogates: the decoder's answers on them are modelled, no round trip is claimed.
- Splitter.SplitLongSm: the reference number is an input, since the source draws it at random; UCS-2 text of more than 32768 units, for which the source's buffer is too small, is excluded.
- WebSocket.Connection.DeliverFrame: the handler's answer (close or not) is not modelled; payloads of 2^31 - 14 octets or more, whose length the source's signed arithmetic cannot hold, are excluded.
- Glob.MatchPrefix: the octet behind the pattern, which the source reads, must not be a star.
- OsipMd5.Context.Update: one call's input plus the buffered octets must stay below 2^32; `OsipMd5.GuardCannotWrap` shows that the source's loop guard is right exactly then.
- Sha1.Context.Update: the same bound, for the same reason; `MongooseMd5.Context.Update` needs none.
- Url.Decode: source and destination are different arrays or the same one from its start; overlaps at other offsets are not modelled.
- `mg_md5` and the other hash users: C strings become octet sequences of any content.
- `DeliveryIds`: what a minus sign does to an unsigned extraction differs between C++ libraries and is an input; a sign alone is read as 0.
- The heartbeat and the unbind of `stop` only matter as a reconnect and an end of the worker.
- SmppClient.Unanswered: one time value per call stands for the repeated `time(NULL)` of a sweep; the machine's sweeps read the clock at every item.
- Error status and error code fields, and the time stamps no decision depends on.
- Overflow of the 64-bit counters and of the static `last_index`; `SubmitRound` is about consecutive calls, with no other caller in between.
- `clients_manager::get_mos` collects like `get_global_status` without a limit and has no member of its own; the singleton mutexes of `get_instance` are leaves and are not among the ranks, apart from the counters'.
- `is_free` looks at the delivered list under the delivering lock; no theorem about it holds.
