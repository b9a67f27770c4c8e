# Byte pipelines and parsers, verified

This project models the byte-level core of an eSIM local profile assistant (`src/euicc-go`, SGP.22) and three algorithmic
cores of a netlink library (`src/netlink`), and proves what they keep for all inputs.

**The eSIM pipeline** is one chain of codecs and protocols, and its results compose.

* `BerTag`, `BerLength`, `BerTlv` (Tag.dfy, Length.dfy, Tlv.dfy): BER-TLV as functions on byte strings (ITU-T X.690,
  sections 8.1.2 and 8.1.3) with two laws: writing then reading gives the tree back, and reading then writing gives the
  canonical form. `BerIO` (TlvIO.dfy) is the same codec as it runs: a reader with nested limits, a writer that may fail in
  the middle, and methods proved equal to those functions.
* `BoundProfile` (Bpp.dfy): the segmentation of a Bound Profile Package (SGP.22 v2.5, section 2.5.5). The segments are cut
  without encoding the whole, and reassemble to the whole exactly when the children are in the specified order.
* `BerSpelling` (TlvSpellings.dfy) is what the reader accepts, exactly; `SegmentCuts` where every cut of a package lies.
* `Apdu`, `Transport`, `CardProtocol` (Apdu.dfy, Transmitter.dfy, Card.dfy): STORE DATA chaining and the GET RESPONSE loop
  (SGP.22, section 5.7.2; class byte of ETSI TS 102 221, section 10.1.1), first against any replies whatever, then against a
  card with a pending answer. `WriteOutcome` tells success, count and buffer of a write from the bytes of the replies.
* `Installation` (Install.dfy) puts these together: what the card receives in the data fields of all blocks of all
  segments is the encoding of the package. `FirstAnswer` says where the transfer stops. `CardRuns` (CardRuns.dfy) shows
  that the conversations the card results speak of take place, for every command and every list of answers.
* `Messages` (Messages.dfy) is what a session reads out of the messages of the SM-DP+ and of the card, panics included.
  `Download` (Download.dfy) is a download session against an arbitrary environment, which installs with `Installation`;
  `SessionLaws` spells its trace and its ending out; `MessageLaws` and `PrimitiveLaws` do so for the messages, from tags
  and octets. `DownloadFailures` (DownloadFailures.dfy) has one input for each kind of message that ends it in a panic.
  `ActivationText` (ActivationCode.dfy) and `Bcd` (Bcd.dfy) are its text forms.

**Netlink.** `Netlink` (Netlink.dfy) has the attribute layout. `Conntrack` is the flow parser as functions of the unread
bytes, `ConntrackReader` the same parser as a cursor that fills objects, `ConntrackCodec` the builder and the round trip,
`ConntrackAlignment` what becomes of addresses that do not fill whole words, `ConntrackOddities` of nests that no builder
writes and of messages that are cut off, `ConntrackFiltering` (ConntrackFilter.dfy) the filter and `ConntrackDelete` the
delete loop. `RateTable` and `BridgeVlan` are the arithmetic cores of traffic control and of VLAN tunnels.

## How to read the model

* Where the source works step by step there is a method (or a class) with the source's loops, proved equal to a function;
  the properties are then proved of the function. Panics are modelled: as `None`, `Panicked`, `Panics`, `Crashed`, `Crash` or
  `PackagePanic`.
* Machine integers have their width: lengths and counters that are `uint16` in the parser wrap, and so do block numbers,
  block counts, tunnel numbers and table sizes. `int` and `uint` have 64 bits. Shifts and masks are written as arithmetic.
* Native byte order is the parameter `Endian`; everything about netlink holds for both orders.
* A `Run`, `Session` or `Tally` records what a party did to the outside, in order. Replies, kernel answers and user
  decisions are arbitrary parameters.
* Results about a card suppose that it answers as long as there are replies (`CardProtocol.Cut`), and show how many replies
  are enough for a run to end by itself.
* A TLV is a value; `Nil` stands for a nil pointer among the children. `Cell` is the variable that a read overwrites.

## Where a property holds exactly

Several laws hold under a condition, and are stated as equivalences with it.

* Round trip of a tree: exactly for tags that the reader accepts (`BerTlv.RoundTrip`); all of `NewTag`'s are. Reading a tag
  and building it again: exactly when its number fits 64 bits (`BerTag.CanonicalTag`).
* A session that AuthenticateClient let through ends with a successful install and no cancellation, or with exactly one
  cancellation: exactly when every message it reaches has the fields that the code dereferences (`Download.EndsOnce`,
  `Download.MessagesHold`). The code checks none of these: the metadata itself and the network of its profile owner,
  `smdpSigned2` and its boolean, the header of the GetBoundProfilePackage reply, its status, the data of a failure status,
  the fields of a profile installation result; and a PrepareDownload request of 2^24 bytes or more cannot be written.
* Exactly the last block is flagged: exactly when the length is no multiple of the block size and at most 256 blocks are
  needed (`Transport.FlagsExactlyLast`); a shorter exact multiple flags none (`Transport.ExactMultipleFlagsNone`).
* The response buffer is the concatenation of all answers: exactly when no 61xx reply to a block carried data, which the
  code drops (`CardProtocol.WriteDelivers`).
* Label criteria: the comment on `AddLabels` has an unmatching list met by flows that do not contain all of the labels; the
  code asks that none is contained. The model follows the code; `ConntrackFiltering.UnmatchNeedsNone` says when both agree.
* A flow survives the message round trip unchanged exactly when it has no counters and no timestamps, which the builder
  does not write (`ConntrackCodec.PortFlowRoundTrip`).
* A TCP or UDP tuple with addresses of up to 16 bytes and a destination is read back exactly when both addresses fill whole
  words (`ConntrackAlignment.TupleSurvivesExactly`): the builder pads, and the parser does not skip the padding.
* Table sizes fit 32 bits exactly for an MTU below 2^31 (`RateTable.SizesFit`), and cover the packets of a shift that the
  caller chooses exactly up to 55 (`RateTable.SizesCoverExactly`). From 2^31 on the table is nondecreasing only if the
  transmit time does not tell two given sizes apart (`RateTable.TableOrderedExactly`).
* A range of tunnels reads back as itself exactly when it has at least two VLANs and both spans are equal
  (`BridgeVlan.ExpandedExactly`).
* GSM-BCD: `Bcd.DecodeEncode` and `Bcd.EncodeDecode` say for which digits each direction is the identity. An odd-length
  string survives even with an f in it, because only the padding is cut.
* `UnmarshalBinary` overwrites its destination before it rejects trailing bytes; `BerIO.UnmarshalBinary` says so.

## Model

| member | source | states |
|---|---|---|
| BerTag.NewTag | src/euicc-go/bertlv/tag.go:12-32 | the loops over the septet array build the tag that `EncodeTag` defines, for every class, form and 64-bit number |
| BerTag.FillSeptets | src/euicc-go/bertlv/tag.go:18-27 | filling from the end leaves the base-128 digits of the number, without leading zeros |
| BerTag.ContinueInPlace | src/euicc-go/bertlv/tag.go:28-30 | all octets but the last get the continuation bit, in place |
| BerTag.Value | src/euicc-go/bertlv/tag.go:75-89 | the accumulating loop returns the number of the tag modulo 2^64 |
| BerTag.EncodedTagDecodes | src/euicc-go/bertlv/tag.go:12-32 | a built tag is valid, and class, form and number come back |
| BerTag.TagRoundTrip | src/euicc-go/bertlv/tag.go:12-61 | reading a built tag, whatever follows it, returns it and takes all of it |
| BerTag.DecodeTagAccepts | src/euicc-go/bertlv/tag.go:34-61 | the reader accepts exactly the valid tags, and takes exactly that prefix |
| BerTag.CanonicalTag | src/euicc-go/bertlv/tag.go:12-61 | an accepted tag is the `NewTag` of its own parts exactly when it has at most nine continuation octets, or ten of which the first spells 1 |
| BerTag.LowTagExactly | src/euicc-go/bertlv/tag.go:34-44 | an octet that does not announce a high tag number is a tag by itself |
| BerTag.HighTagExactly | src/euicc-go/bertlv/tag.go:34-61 | a high tag number is read exactly when it takes at most ten octets, has no leading zero digit, and modulo 2^64 is at least 31 |
| BerTag.AccumulateIsNumber | src/euicc-go/bertlv/tag.go:75-89 | the wrapping accumulation is the base-128 number modulo 2^64 |
| BerLength.LengthRoundTrip | src/euicc-go/bertlv/length.go:9-53 | every length below 2^24 is read back, with the number of octets written |
| BerLength.LengthCanonical | src/euicc-go/bertlv/length.go:9-53 | re-encoding an accepted length never lengthens it, and restores the octets exactly when they were minimal |
| BerLength.LongForm | src/euicc-go/bertlv/length.go:23-53 | one to three octets after their count are read as their big-endian number, minimal or not |
| BerLength.OtherForms | src/euicc-go/bertlv/length.go:23-53 | the fields that are refused: nothing, 80, a count above three, and a field that is cut off |
| BerSpelling.LengthSpelled | src/euicc-go/bertlv/length.go:23-53 | a length is read exactly when the input begins with one of its spellings, and takes that spelling |
| BerTlv.EmitDone | src/euicc-go/bertlv/tlv_writer.go:29-60 | `WriteTo` succeeds exactly on well-shaped trees whose lengths can be announced, and then writes `Len` bytes |
| BerTlv.SizedNeverPanics | src/euicc-go/bertlv/tlv_writer.go:29-60 | a tree whose content can be measured is written without a panic |
| BerTlv.MarshalLen | src/euicc-go/bertlv/tlv_writer.go:11-75 | marshalling succeeds exactly on well-shaped, sizeable trees, to exactly `Len` bytes |
| BerTlv.ParseEmit | src/euicc-go/bertlv/tlv_reader.go:10-44 | reading what was written returns the tree without its nil children, and takes exactly what was written |
| BerTlv.ParsedShape | src/euicc-go/bertlv/tlv_reader.go:10-44 | whatever is read is well shaped, has valid tags and no nil child |
| BerTlv.ReencodeTree | src/euicc-go/bertlv/tlv_reader.go:10-44 | writing what was read never takes more bytes; the very bytes exactly when every length was minimal |
| BerTlv.RoundTrip | src/euicc-go/bertlv/tlv_writer.go:11-75 | `UnmarshalBinary` of `MarshalBinary` is the tree without nil children exactly when the reader accepts its tags, whatever follows the encoding; the encoding has `Len` bytes |
| BerTlv.Canonicalisation | src/euicc-go/bertlv/tlv_reader.go:10-68 | every accepted input re-encodes without a panic, to no more bytes; to itself exactly when all lengths were minimal; and that reads back as the same tree |
| BerTlv.EmitInjective | src/euicc-go/bertlv/tlv_writer.go:29-75 | two trees have the same bytes exactly when they are equal up to nil children |
| BerSpelling.AcceptedExactly | src/euicc-go/bertlv/tlv_reader.go:10-68 | `UnmarshalBinary` accepts exactly the trees whose lengths are spelled in any of their forms, at every level, and reads each as its tree |
| BerSpelling.SpellingRead | src/euicc-go/bertlv/tlv_reader.go:10-44 | every such spelling is read whole, whatever follows it |
| BerSpelling.ReadIsSpelt | src/euicc-go/bertlv/tlv_reader.go:10-44 | whatever is read stands in the input as such a spelling |
| BerIO.ByteReader.ReadFull | src/euicc-go/bertlv/io.go:7-17 | a read inside the innermost limit: all bytes or a failure, never past the limit |
| BerIO.ReadTag | src/euicc-go/bertlv/tag.go:34-61 | the reading loop accepts what `DecodeTag` accepts and moves by exactly that tag |
| BerIO.ReadLength | src/euicc-go/bertlv/length.go:23-53 | the reading of a length field, for all forms it knows |
| BerIO.ReadFrom | src/euicc-go/bertlv/tlv_reader.go:10-44 | terminates on every stream; on success the count is header plus declared length and the reader moved by it; on failure the destination is unchanged |
| BerIO.ReadHeader | src/euicc-go/bertlv/tlv_reader.go:14-21 | tag and length, with the bytes taken by both |
| BerIO.ReadChildren | src/euicc-go/bertlv/tlv_reader.go:23-35 | the children fill the declared length exactly |
| BerIO.UnmarshalBinary | src/euicc-go/bertlv/tlv_reader.go:59-68 | succeeds exactly when one tree takes all bytes; with bytes left over the destination is overwritten all the same |
| BerIO.ContentLength | src/euicc-go/bertlv/length.go:55-67 | the sum over the children, with the panics of a length too long |
| BerIO.Len | src/euicc-go/bertlv/tlv_writer.go:11-27 | the total length, by cases on the length field |
| BerIO.WriteTo | src/euicc-go/bertlv/tlv_writer.go:29-60 | what reaches the writer is the emission cut where the writer fails; the count is what got through |
| BerIO.WriteChildren | src/euicc-go/bertlv/tlv_writer.go:51-58 | the child loop writes the emissions of the non-nil children in order, up to the first failure |
| BerIO.MarshalBinary | src/euicc-go/bertlv/tlv_writer.go:70-75 | sizes first, so it panics exactly on a tree that cannot be measured; otherwise the emission and how it ended |
| BerIO.Clone | src/euicc-go/bertlv/tlv_writer.go:81-98 | a clone is the tree without its nil children |
| BoundProfile.FindFirst | src/euicc-go/bertlv/tlv_selector.go:13-20 | the first child with the tag, or nil |
| BoundProfile.ValidBoundProfilePackage | src/euicc-go/v2/bpp.go:97-123 | accepts exactly packages with tag BF36 that have the four mandatory children |
| BoundProfile.MarshalHeader | src/euicc-go/v2/bpp.go:16-39 | tag and length of a node, from the sizes of its children alone |
| BoundProfile.AppendSegmentedSequence | src/euicc-go/v2/bpp.go:40-58 | appends the glued cut: the header joined to the first non-nil element, or alone |
| BoundProfile.AppendHeaded | src/euicc-go/v2/bpp.go:77-93 | appends `HeadedPieces`, or panics with it; `SegmentCuts.CutsLie` says where its cuts lie |
| BoundProfile.SegmentedBoundProfilePackage | src/euicc-go/v2/bpp.go:12-95 | returns `Segment`, panics and errors included; `SegmentCuts` and `SegmentsReassemble` say what that is |
| BoundProfile.PiecesReassemble | src/euicc-go/v2/bpp.go:16-58 | both ways of cutting a node concatenate to its encoding, with the number of pieces; only a nil element makes the second panic |
| BoundProfile.SegmentFlattens | src/euicc-go/v2/bpp.go:12-95 | the segments are the header and the encodings of the visited children; when segmentation panics |
| BoundProfile.SegmentsReassemble | src/euicc-go/v2/bpp.go:12-95 | the segments concatenate to `Bytes()` exactly when the children are in specification order; their number; the panics exactly on nil elements under A1 and A3 |
| SegmentCuts.CutsLie | src/euicc-go/v2/bpp.go:40-95 | every cut by number: segment 0 is tag and length of the package with the BF23 node; tag and length of A0 and A2 are glued to their first element, those of A1 and A3 stand alone; every other element is one segment |
| SegmentCuts.RefusedExactly | src/euicc-go/v2/bpp.go:97-123 | a package is refused exactly when it is nil, does not bear BF36, or lacks BF23, A0, A1 or A3 |
| Apdu.RequestRoundTrip | src/uicc-go/apdu/request.go:23-89 | every command that can be marshalled is decoded to the request it came from |
| Apdu.ChannelRoundTrip | src/euicc-go/driver/transmitter.go:147-153 | setting the channel of a fresh or reused request gives the same class, from which channels 0 to 19, and no others, are recovered |
| Transport.CardTransmitter.Transmit | src/euicc-go/driver/transmitter.go:128-145 | one exchange, with the class set on the caller's request; nothing is sent when the command does not fit; `WriteOutcome.RepliesRead` says which replies it accepts |
| Transport.CardTransmitter.ReadCommandResponse | src/euicc-go/driver/transmitter.go:155-175 | the GET RESPONSE loop does what `GetResponse` says to the log, the replies and the buffer |
| Transport.CardTransmitter.Write | src/euicc-go/driver/transmitter.go:101-126 | the block loop leaves log, buffer, count and success of `WriteRun`; `WriteOutcome.WriteSucceedsExactly` says what these are, from the bytes of the replies |
| Transport.ChunkCount | src/euicc-go/driver/transmitter.go:107-108 | how many blocks a command takes |
| Transport.ChunksFlatten | src/euicc-go/driver/transmitter.go:108-108 | the blocks concatenate to the command |
| Transport.FlagsExactlyLast | src/euicc-go/driver/transmitter.go:107-115 | exactly the last block is flagged if and only if the length is no multiple of the block size and at most 256 blocks are needed |
| Transport.ExactMultipleFlagsNone | src/euicc-go/driver/transmitter.go:107-115 | a positive exact multiple flags no block if and only if it needs fewer than 256 |
| Transport.GetResponseStoresNothing | src/euicc-go/driver/transmitter.go:155-175 | fetching an answer sends no STORE DATA block |
| Transport.BlocksSend | src/euicc-go/driver/transmitter.go:101-126 | against any replies the blocks sent are a prefix of the command's blocks, all of them on success |
| Transport.BlocksCarryCommand | src/euicc-go/driver/transmitter.go:101-126 | the data fields of the command's blocks concatenate to the command |
| Transport.BlockChaining | src/euicc-go/driver/transmitter.go:101-126 | blocks are numbered modulo 256, have the class of the channel and P1 0x91 exactly when flagged, and carry the command, all of it on success, for any replies |
| WriteOutcome.WriteSucceedsExactly | src/euicc-go/driver/transmitter.go:101-145 | for any replies: success exactly when all blocks were sent and every reply ends in 90 00 or has 61 second to last; only the last reply can be another, and nothing follows it; the count is the data acknowledged so, the buffer the data of the good replies |
| WriteOutcome.FetchesWhatIsDue | src/euicc-go/driver/transmitter.go:112-175 | 61xx is always followed by GET RESPONSE with the class of the channel, P1 and P2 zero and Le xx; everything else is STORE DATA |
| WriteOutcome.RepliesRead | src/euicc-go/driver/transmitter.go:128-145 | the replies that `transmit` accepts, by their bytes |
| WriteOutcome.FetchLawful | src/euicc-go/driver/transmitter.go:155-175 | the same law for the GET RESPONSE loop |
| CardProtocol.FetchEnds | src/euicc-go/driver/transmitter.go:155-175 | the loop ends: a card that answers as long as there are replies is not asked for more replies than it has bytes pending |
| CardProtocol.FetchDelivers | src/euicc-go/driver/transmitter.go:155-175 | against such a card the loop ends within as many replies as the pending answer has bytes, and when it has ended it has delivered the whole answer |
| CardProtocol.SendBlockEnds | src/euicc-go/driver/transmitter.go:112-124 | one block ends within one reply more than the card has bytes to say to it |
| CardProtocol.SendBlockDelivers | src/euicc-go/driver/transmitter.go:112-124 | a block that was answered throughout delivers its answer less what came with 61xx |
| CardProtocol.BlocksAnswered | src/euicc-go/driver/transmitter.go:108-124 | the block loop ends within as many replies as there are blocks and bytes that the card says |
| CardProtocol.WriteDelivers | src/euicc-go/driver/transmitter.go:101-126 | against a card that answers as long as there are replies `Write` ends within that many; when it has ended it has succeeded, and its buffer is all answers in order exactly when none came along with 61xx |
| Installation.Install | src/euicc-go/lpa/download.go:174-198 | the method sends the log of the segments and returns `InstallResult`, an error or a panic; `FirstAnswer.CardDecides` says what that is |
| Installation.SegmentsAnswered | src/euicc-go/lpa/download.go:180-188 | the segment loop ends within as many replies as there are blocks and bytes that the card says |
| Installation.EndToEndWithCard | src/euicc-go/lpa/download.go:174-188 | with a card that answers as long as there are replies the transfer ends; if it is silent up to the last segment, the data fields of all STORE DATA blocks then concatenate to the package's `Bytes()` |
| Messages.AnswerJudged | src/euicc-go/v2/es10b.go:105-146 | a complete answer never panics; an answer is a success exactly when its tag, fields and notification are right and it reports no error |
| MessageLaws.CodeRequiredExactly | src/euicc-go/lpa/download.go:239-243 | the first child with tag 01 decides: a code is required exactly when it holds one octet that is not zero |
| MessageLaws.CodeUnknown | src/euicc-go/lpa/download.go:239-243 | without such a child the code panics |
| MessageLaws.RequirementUnderstood | src/euicc-go/bertlv/primitive/boolean.go:8-25 | what `MarshalBool` writes is what is understood |
| MessageLaws.HeaderJudged | src/euicc-go/v2/types.go:51-60 | a reply is a success exactly when its header has a status and that is Executed-Success; when it is an error and when a panic |
| MessageLaws.RequestInOrder | src/euicc-go/v2/es10b.go:30-50 | the request holds signed data, signature, the digest under tag 04 if there is one, and certificate, in this order |
| MessageLaws.MetadataRead | src/euicc-go/v2/profile.go:29-76 | from the tags: when the metadata is read, and when reading it panics |
| MessageLaws.MetadataTags | src/euicc-go/v2/profile.go:30-32 | E3 and BF25 are its tags |
| MessageLaws.ConfigurationsRead | src/euicc-go/v2/profile.go:204-258 | a list of notification configurations is read exactly when each one is; where it panics |
| MessageLaws.AnswerRead | src/euicc-go/v2/es10b.go:105-146 | from the tags: when the answer of the card is a success, and when it panics |
| PrimitiveLaws.BitStrings | src/euicc-go/bertlv/primitive/bitstring.go:20-61 | octets are read as bits exactly when they are the bit string that is written for them |
| PrimitiveLaws.EventsRead | src/euicc-go/v2/notification.go:26-49 | an event is read exactly from the bit string with one bit set whose number, cut to eight bits, is at most 3 |
| PrimitiveLaws.EventOctets | src/euicc-go/v2/notification.go:51-58 | the octets of the four events, and that they are read |
| PrimitiveLaws.IntegersThatFit | src/euicc-go/bertlv/primitive/integer.go:14-45 | an integer of any length is accepted exactly when its value fits the two's complement range of its target |
| Messages.RequestFits | src/euicc-go/v2/es10b.go:30-50 | the PrepareDownload request can be written exactly when its parts stay below 2^24 bytes together; else it panics |
| Messages.ReadPackagesNeverPanic | src/euicc-go/v2/bpp.go:12-95 | segmentation cannot panic on a package that was read from bytes |
| Installation.SendAll | src/euicc-go/lpa/download.go:180-188 | the segment loop leaves log and answer of `SendSegments`; `FirstAnswer` says where it stops |
| Installation.SegmentsReceived | src/euicc-go/lpa/download.go:180-188 | what the card received is a prefix of the segments, all of them when all were sent |
| Installation.EndToEnd | src/euicc-go/lpa/download.go:174-188 | for any replies the data fields of all blocks are a prefix of the package's `Bytes()`, and all of it once every segment has gone through |
| Installation.QuietCardCompletes | src/euicc-go/lpa/download.go:180-188 | a card that answers all segments but the last with no data gets every segment |
| FirstAnswer.FirstAnswerEnds | src/euicc-go/lpa/download.go:180-188 | a card silent on all segments before one, and not on that one, none of it lost: the transfer ends with that segment, the card has received exactly the segments up to it, and what it said is the answer |
| FirstAnswer.CardDecides | src/euicc-go/lpa/download.go:174-198 | and what it said is what `install` judges: the outcome does not depend on anything that could have followed |
| FirstAnswer.InstallFails | src/euicc-go/lpa/download.go:174-198 | a refused package, a failed write and an answer that is not one TLV make the install fail |
| FirstAnswer.GoesOnExactly | src/euicc-go/lpa/download.go:180-188 | for any replies: a segment is passed only if its write succeeded and left an empty buffer; before the last segment the transfer ends with a failed write or an answer; nothing else is exchanged |
| CardRuns.FetchRuns | src/euicc-go/driver/transmitter.go:155-175 | the loop fetches any pending answer from a card that hands it out 256 bytes at a time |
| CardRuns.AnyAnswersDelivered | src/euicc-go/driver/transmitter.go:101-126 | for every command and every list of answers there is a conversation with a card that obeys the protocol, and `Write` leaves all the answers in the buffer |
| CardRuns.AnyAnswerInstalls | src/euicc-go/lpa/download.go:174-198 | every installable package can be installed with any answer: the card gets the whole encoding, and `install` ends as the answer deserves |
| CardRuns.SegmentsRun | src/euicc-go/lpa/download.go:180-188 | the same for a list of segments, with a card silent up to the last |
| Download.Client.DownloadProfile | src/euicc-go/lpa/download.go:112-172 | the method leaves trace, stored code and ending of `Run`, for all messages; `SessionLaws` spells these out |
| Download.Client.AskAndContinue | src/euicc-go/lpa/download.go:129-146 | polls, confirmation and confirmation code |
| Download.Client.AuthenticateServer | src/euicc-go/lpa/download.go:200-209 | writes the request and judges the header of the reply: success, an error, or a panic |
| Download.Client.BindAndInstall | src/euicc-go/lpa/download.go:148-171 | the second and third stage, with the install over the card |
| Download.EndsOnce | src/euicc-go/lpa/download.go:112-172 | after Executed-Success a run ends with a successful install and no cancellation, or with exactly one cancellation, if and only if every message that it reaches has the fields that the code dereferences; otherwise it panics with neither; without Executed-Success it neither installs nor cancels |
| Download.RunShape | src/euicc-go/lpa/download.go:112-172 | the events of every run: at most one install, then at most one cancellation, and what came before |
| DownloadFailures.MissingMetadata | src/euicc-go/v2/profile.go:29-32 | a reply without metadata ends the session in a panic |
| DownloadFailures.OwnerWithoutNetwork | src/euicc-go/v2/profile.go:181-187 | so does a profile owner without its network |
| DownloadFailures.MissingSignedData | src/euicc-go/lpa/download.go:239-243 | so does a reply without `smdpSigned2` |
| DownloadFailures.MissingRequirement | src/euicc-go/lpa/download.go:239-243 | so does one whose `smdpSigned2` does not say whether a confirmation code is required |
| DownloadFailures.OversizedRequest | src/euicc-go/v2/es10b.go:30-50 | so do parts that can each be written, but not together |
| DownloadFailures.HeadersThatPanic | src/euicc-go/v2/es9p.go:84-86 | so does a GetBoundProfilePackage reply without header, without status, or with a failure without data |
| DownloadFailures.IncompleteAnswer | src/euicc-go/v2/es10b.go:105-118 | for every installable package: a card that obeys the protocol, takes the whole package and gives an incomplete answer ends the session in a panic |
| DownloadFailures.SmallestFailure | src/euicc-go/v2/es10b.go:105-118 | there are such packages and answers |
| DownloadFailures.OnlyAnswersPanic | src/euicc-go/lpa/download.go:174-198 | with a package read from bytes, `install` panics only on the answer of the card |
| Download.InstallNeedsConsent | src/euicc-go/lpa/download.go:112-172 | install is reached once at most, and only after authentication, acceptance when there is a way to ask, and a package bound for the code, which is not empty if required; `SessionLaws.RequiredCode` says when it is, from the octets |
| Download.ProgressIsPrefix | src/euicc-go/lpa/download.go:112-172 | the reported stages are a prefix of the three, all three before an install |
| Download.CancelNamesTransaction | src/euicc-go/lpa/download.go:112-172 | which transaction and reason a cancellation names |
| Download.ErrorMeansNotInstalled | src/euicc-go/lpa/download.go:112-172 | an installed profile is never reported as an error; no error means installed, or declined and cancelled |
| Download.CodeChangesOnlyOnRequest | src/euicc-go/lpa/download.go:134-146 | the stored code changes only to what the user entered, when one was required and missing |
| SessionLaws.SessionSpelledOut | src/euicc-go/lpa/download.go:112-172 | the trace of every session, event by event, each with its condition on the environment; the code it leaves |
| SessionLaws.EndingSpelledOut | src/euicc-go/lpa/download.go:112-172 | how every session ends: aborted, declined, installed or in a panic, and what the caller is told |
| SessionLaws.EventsExactly | src/euicc-go/lpa/download.go:112-172 | consent is asked, the code is asked, the package requested and installed exactly under these conditions |
| SessionLaws.RequiredCode | src/euicc-go/lpa/download.go:134-146 | from the octets of `smdpSigned2`: with a code required nothing is installed without one, a missing one is asked for exactly when there is a way to and nobody declined, and every request holds the digest under 04 between signature and certificate |
| SessionLaws.NoCodeRequired | src/euicc-go/lpa/download.go:134-146 | with none required none is asked for, and the request holds no digest |
| SessionLaws.NoRequirement | src/euicc-go/lpa/download.go:239-243 | without the boolean nothing is asked, requested or installed |
| ActivationText.TextRoundTrip | src/euicc-go/lpa/download.go:26-70 | reading the text back restores matching ID and OID exactly when neither holds a separator and no old OID shows through |
| ActivationText.TextInParts | src/euicc-go/lpa/download.go:26-45 | the parts of the text; the last is 1 with a confirmation code, and the OID then keeps its place |
| ActivationText.TextAccepted | src/euicc-go/lpa/download.go:47-70 | which parts are taken from a text; anything may follow the prefix, and further parts are ignored |
| ActivationText.TextRefused | src/euicc-go/lpa/download.go:47-70 | which texts are refused, and what is left then |
| ActivationText.PartsAreClean | src/euicc-go/lpa/download.go:47-70 | no part of a split text holds the separator |
| ActivationText.MarshalText | src/euicc-go/lpa/download.go:26-45 | the buffer ends up as the text of the code |
| Bcd.EncodeDigits | src/euicc-go/v2/identifier.go:47-61 | checks, pads, decodes and swaps in place: the result of `Encode` |
| Bcd.SwapInPlace | src/euicc-go/v2/identifier.go:57-59 | swaps the nibbles of every byte of an array, in place |
| Bcd.DecodeDigits | src/euicc-go/v2/identifier.go:63-74 | swaps into a new array and cuts at the last f |
| Bcd.SwapNibbles | src/euicc-go/v2/identifier.go:57-59 | the shifts and masks on eight bits swap the nibbles |
| Bcd.DecodeEncode | src/euicc-go/v2/identifier.go:47-74 | encoding fails exactly on a non-digit; decoding returns the string in lower case exactly when its length is odd or it has no f |
| Bcd.EncodeDecode | src/euicc-go/v2/identifier.go:47-74 | encoding a decoded byte string returns it exactly when its digits have no f or end in one |
| Bcd.EncodedDigits | src/euicc-go/v2/identifier.go:47-61 | digit 2i of the string is the low nibble of byte i, digit 2i + 1 the high one; an f pads |
| Bcd.DecodedDigits | src/euicc-go/v2/identifier.go:63-74 | and the other way round |
| Netlink.SerializedLength | src/netlink/nl/nl_linux.go:422-463 | a serialised attribute takes its aligned length, so siblings start on 4-byte boundaries |
| Netlink.SerializeConcat | src/netlink/nl/nl_linux.go:437-463 | lists of attributes serialise piece by piece |
| Netlink.Get64Put64 | src/netlink/conntrack_linux.go:536-546 | 64-bit numbers are read back in either byte order |
| Conntrack.ProgressBound | src/netlink/conntrack_linux.go:683-724 | on any bytes the top-level loop takes at most one turn per byte |
| Conntrack.Step | src/netlink/conntrack_linux.go:683-724 | a turn takes at least one byte, on any bytes |
| ConntrackReader.NfReader.ParseTL | src/netlink/conntrack_linux.go:517-525 | header of an attribute, its length wrapping below 4; the cursor does not move back |
| ConntrackReader.NfReader.ParseTLV | src/netlink/conntrack_linux.go:509-515 | header and value, zeros when the value is cut short |
| ConntrackReader.NfReader.SkipNfAttrValue | src/netlink/conntrack_linux.go:530-534 | skips the value rounded up in 16 bits |
| ConntrackReader.NfReader.ParseIpTuple | src/netlink/conntrack_linux.go:459-507 | fills the tuple as `ReadTuple` says, with wrapping byte counts; fails exactly on an empty protocol number |
| ConntrackReader.NfReader.ParsePorts | src/netlink/conntrack_linux.go:477-504 | ports for TCP and UDP, and the skip of what the total leaves |
| ConntrackReader.NfReader.ParseCounters | src/netlink/conntrack_linux.go:552-564 | up to two counters, in any order |
| ConntrackReader.NfReader.ParseTimeStamp | src/netlink/conntrack_linux.go:567-589 | as many timestamps as the length allows |
| ConntrackReader.NfReader.ParseProtoInfoTCP | src/netlink/conntrack_linux.go:598-615 | the TCP state; at most one turn per four bytes of the announced length |
| ConntrackReader.NfReader.ParseProtoInfo | src/netlink/conntrack_linux.go:617-643 | the loop leaves value and cursor of `ReadProtoInfo`, in at most one turn per four bytes; `ConntrackOddities.LastNestWins` says what is told |
| ConntrackReader.NfReader.ParseNested | src/netlink/conntrack_linux.go:684-707 | the nested cases, each leaving flow and cursor as `ReadNested` says |
| ConntrackReader.NfReader.ParsePlain | src/netlink/conntrack_linux.go:708-723 | the plain cases, each leaving flow and cursor as `ReadPlain` says |
| ConntrackReader.NfReader.ParseAttribute | src/netlink/conntrack_linux.go:683-724 | one turn takes bytes and is the `Step` of the flow so far |
| ConntrackReader.NfReader.ParseAll | src/netlink/conntrack_linux.go:683-724 | the whole loop, in at most one turn per byte, leaves the flow that `Loop` says, or fails on an index |
| ConntrackReader.ParseRawData | src/netlink/conntrack_linux.go:667-726 | terminates within one turn per byte and fills a new flow as `Parse` says, or fails on an index; `ConntrackCodec.MessageParses` and `ConntrackOddities` say what that is |
| ConntrackCodec.TupleToNlData | src/netlink/conntrack_linux.go:291-319 | the attributes of a tuple, or an error for an unknown family |
| ConntrackCodec.ToNlData | src/netlink/conntrack_linux.go:357-450 | appends exactly the attributes of `Build`, in order; an error for unknown families, labels not of 16 bytes, and other protocol information than TCP |
| ConntrackCodec.TCPToNlData | src/netlink/conntrack_linux.go:254-262 | the three nested attributes of a TCP state |
| ConntrackCodec.TupleReads | src/netlink/conntrack_linux.go:459-507 | the tuple that the builder writes, with addresses that fill whole words, is read whole, and nothing more |
| ConntrackCodec.LaidOutReads | src/netlink/conntrack_linux.go:459-507 | so is one with addresses and ports in either order, with or without ports, and with any further attributes in the protocol nest |
| ConntrackCodec.NestsRead | src/netlink/conntrack_linux.go:617-643 | protocol information with any list of nests is read to the last protocol told, and exactly to its end: TCP (1) with its last state, DCCP (2), SCTP (3), any other is skipped |
| ConntrackAlignment.TupleSurvivesExactly | src/netlink/conntrack_linux.go:459-515 | a TCP or UDP tuple with addresses of up to 16 bytes and a destination is read back exactly when both addresses fill whole words |
| ConntrackAlignment.MisalignedSource | src/netlink/conntrack_linux.go:460-468 | after any other source the destination is never found |
| ConntrackAlignment.MisalignedDestination | src/netlink/conntrack_linux.go:470-476 | after any other destination the protocol is never found |
| ConntrackCodec.PartsRead | src/netlink/conntrack_linux.go:598-615 | a TCP nest with any list of attributes is read to its last state, and exactly to its end |
| ConntrackCodec.InfoSteps | src/netlink/conntrack_linux.go:598-643 | a protocol information attribute with any list of nests is applied by one turn, up to the next boundary |
| ConntrackCodec.AttributeSteps | src/netlink/conntrack_linux.go:683-724 | every well-formed attribute, handled or not, is applied by one turn, and leaves the cursor on the next boundary |
| ConntrackCodec.MessageParses | src/netlink/conntrack_linux.go:667-726 | a message of well-formed attributes in any order and number is parsed to what they say in turn |
| ConntrackOddities.LastNestWins | src/netlink/conntrack_linux.go:617-643 | the last DCCP, SCTP or TCP nest decides, whatever unknown nests there are |
| ConntrackOddities.OtherCountStops | src/netlink/conntrack_linux.go:552-564 | an item of another type ends the counters |
| ConntrackOddities.OtherStampStops | src/netlink/conntrack_linux.go:567-589 | and the timestamps |
| ConntrackOddities.OtherLengthsUnread | src/netlink/conntrack_linux.go:567-589 | timestamps of another length are not read |
| ConntrackOddities.NoAddresses | src/netlink/conntrack_linux.go:684-707 | a tuple without a nest of addresses, in either direction |
| ConntrackOddities.OtherAddress | src/netlink/conntrack_linux.go:460-468 | an address of another type |
| ConntrackOddities.NoNumber | src/netlink/conntrack_linux.go:470-489 | a protocol nest without a number, and a number without a value |
| ConntrackOddities.OtherPort | src/netlink/conntrack_linux.go:490-501 | a port of another type |
| ConntrackOddities.CutHeader | src/netlink/conntrack_linux.go:517-525 | a message that is cut off within a header is parsed to its whole attributes |
| ConntrackOddities.CutMark | src/netlink/conntrack_linux.go:517-525 | a mark that is cut off is read as zero |
| ConntrackCodec.UnhandledIsTransparent | src/netlink/conntrack_linux.go:683-724 | inserting an attribute of an unhandled type and any content at any boundary changes nothing |
| ConntrackCodec.FlowRoundTrip | src/netlink/conntrack_linux.go:357-450 | for every flow that can be built, parsing its message returns family, tuples, mark, timeout, labels, zone and TCP state |
| ConntrackCodec.PortFlowRoundTrip | src/netlink/conntrack_linux.go:357-450 | for TCP and UDP flows nothing is lost exactly when there are no counters and timestamps |
| ConntrackFiltering.ConntrackFilter.AddIPNet | src/netlink/conntrack_linux.go:792-804 | an added subnet narrows the criteria by exactly itself; refused when nil or already there |
| ConntrackFiltering.ConntrackFilter.AddPort | src/netlink/conntrack_linux.go:816-832 | an added port narrows the criteria by exactly itself; refused without a protocol that has ports |
| ConntrackFiltering.ConntrackFilter.AddProtocol | src/netlink/conntrack_linux.go:835-841 | an added protocol narrows the criteria by exactly itself |
| ConntrackFiltering.ConntrackFilter.AddLabels | src/netlink/conntrack_linux.go:853-865 | an added label list narrows the criteria by exactly itself; refused when empty |
| ConntrackFiltering.ConntrackFilter.AddZone | src/netlink/conntrack_linux.go:868-874 | an added zone narrows the criteria by exactly itself |
| ConntrackFiltering.ConntrackFilter.MatchConntrackFlow | src/netlink/conntrack_linux.go:878-962 | a filter without criteria matches nothing; any other matches when all of them hold |
| ConntrackFiltering.CriteriaSpelledOut | src/netlink/conntrack_linux.go:878-962 | when a filter with criteria matches, from the tuples, ports, protocol, zone and labels of the flow |
| ConntrackFiltering.SubnetNarrows | src/netlink/conntrack_linux.go:792-804 | adding a subnet under a new key |
| ConntrackFiltering.LabelsNarrow | src/netlink/conntrack_linux.go:853-865 | adding labels under a new key |
| ConntrackFiltering.UnmatchNeedsNone | src/netlink/conntrack_linux.go:843-852 | the code agrees with the comment on unmatching labels exactly for flows with all of the labels, none of them, or no labels at all |
| ConntrackFiltering.UnmatchExample | src/netlink/conntrack_linux.go:948-954 | a flow with one of two labels, where they differ |
| ConntrackFiltering.IgnoredKeyMatchesAll | src/netlink/conntrack_linux.go:878-925 | a subnet under a key that is never looked up makes a filter that matches every flow |
| ConntrackDelete.ConntrackDeleteFilters | src/netlink/conntrack_linux.go:184-219 | the nested loops do what `TryFlows` says; an interrupted dump is worked through, any other dump error is not |
| ConntrackDelete.DeletesOnce | src/netlink/conntrack_linux.go:196-218 | requests are matches plus filter errors; matched flows are distinct; every request is for a matching flow and carries it; nothing follows a deletion of the same flow; every matching filter was tried or the flow was gone |
| ConntrackDelete.PanicsExactly | src/netlink/conntrack_linux.go:196-206 | the run panics exactly when a message that it gets to fails on an index, or has fewer than four bytes and a filter matches it |
| ConntrackDelete.MatchedAreRequested | src/netlink/conntrack_linux.go:196-214 | for any kernel, a delete is requested for exactly the flows that some filter matches |
| ConntrackDelete.FiltersKeep | src/netlink/conntrack_linux.go:198-213 | the filter loop keeps the tally, from any filter on |
| RateTable.CalcRtable | src/netlink/filter_linux.go:1283-1304 | all 256 entries, the shift, and the fields it sets; the shift is never negative, a shorter table is an index failure, and a longer one keeps its other entries |
| RateTable.FindShift | src/netlink/filter_linux.go:1290-1295 | the search loop returns the least shift |
| RateTable.SizesOrdered | src/netlink/filter_linux.go:1296-1299 | up to a shift of 55 sizes never shrink and cover both the packet and the minimum packet unit |
| RateTable.SizeExactly | src/netlink/filter_linux.go:1261-1299 | the exact size of every entry up to a shift of 55, on every link layer |
| RateTable.SizesCoverExactly | src/netlink/filter_linux.go:1296-1299 | the sizes cover the packets of all entries exactly up to a shift of 55 |
| RateTable.TableOrdered | src/netlink/filter_linux.go:1283-1299 | for an MTU below 2^31 the table is nondecreasing, and an entry is no less than the time of any packet it covers |
| RateTable.TableOrderedExactly | src/netlink/filter_linux.go:1283-1299 | on every link layer the table is nondecreasing exactly when the MTU is below 2^31 or the transmit time does not tell the two sizes apart between which it steps back |
| RateTable.LastEntryWraps | src/netlink/filter_linux.go:1298-1298 | from 2^31 on, on every link layer, the last entry is the time of a far smaller packet |
| RateTable.LeastShiftIsLeast | src/netlink/filter_linux.go:1290-1295 | the search ends at the least shift that brings the MTU to 255 or below |
| RateTable.SearchedShift | src/netlink/filter_linux.go:1287-1295 | it is at most 24, exactly 24 from 2^31 on, and bounds the MTU |
| RateTable.AtmRounding | src/netlink/filter_linux.go:1261-1269 | the least number of cells that hold the size, 53 bytes each |
| RateTable.SizesFit | src/netlink/filter_linux.go:1283-1299 | all sizes fit 32 bits exactly when the MTU is below 2^31 |
| BridgeVlan.ReadRouteAttrs | src/netlink/nl/nl_linux.go:1043-1055 | the attribute loop, with its error and the index failure of a cut padding |
| BridgeVlan.ParseAttrs | src/netlink/nl/nl_linux.go:1043-1079 | reading undoes serialising, for any list of attributes |
| BridgeVlan.ParseTunnelInfo | src/netlink/bridge_linux.go:93-132 | the two loops as functions: last attribute of a kind wins, ranges are filled, numbers wrap |
| BridgeVlan.ParseTunnels | src/netlink/bridge_linux.go:63-86 | the fold over the entries of a message |
| BridgeVlan.WriteTunnel | src/netlink/bridge_linux.go:288-304 | a range is written as a begin and an end entry, anything else as a single one |
| BridgeVlan.EntryReads | src/netlink/bridge_linux.go:93-132 | a written entry reads back as its expansion, after whatever came before |
| BridgeVlan.ExpandedExactly | src/netlink/bridge_linux.go:110-124 | an entry expands to the tunnels it stands for exactly when it is single or a range of equal spans |
| BridgeVlan.TunnelsRoundTrip | src/netlink/bridge_linux.go:93-132 | reading the bytes of any list of such entries gives all tunnels in order, none lost or repeated |
| BridgeVlan.MixedRoundTrip | src/netlink/bridge_linux.go:63-91 | attributes of other types, anywhere in the list, change nothing |

## Left out

* Sockets, HTTP, logging, the AID selection and the mutex around the card: replies, server and kernel answers are
  parameters.
* How a session gets to the reply of AuthenticateClient: an error, a panic, or any reply whatever.
* Callbacks of the user that panic themselves; the arguments they get.
* The values of profile metadata, and the contents of certificates and signatures; the hash of the confirmation code is any
  32 bytes.
* TLVs as objects: aliasing between a tree and its clone, and capacity of slices, are not captured, because trees are values.
* A reader that fails in the middle for reasons of its own: a stream here ends, and nested limits are the nearest end.
* The base64, hex and JSON forms of TLVs; `At`, `Find` and `Select`.
* The parsing of URLs (a parameter of `ActivationText.Untext`) and the net arithmetic of subnets (a subnet is a predicate).
* The text form of the IMEI and of other identifiers than the BCD digits.
* The attributes of links, routes, queueing disciplines and actions; the plain VLAN branch of `bridgeVlanModify`.
* Floating-point transmit times: a table is filled with any function of rate and size.
* 32-bit platforms, where `int` and `uint` have 32 bits.
- Transport.CardTransmitter.Write: a block size below 1 makes the source panic, and is excluded by a precondition.
- FirstAnswer.FirstAnswerEnds: block sizes are at most 255, and no answer byte comes along with 61xx, which the code drops.
- CardProtocol.WriteDelivers: block sizes are at most 255, because a longer block is no short command and is not sent.
- BerIO.Clone: a tag without octets makes the source panic, and is excluded by a precondition.
- ConntrackCodec.TupleReads: addresses fill whole words, as 0, 4 and 16 bytes do; `ConntrackAlignment` has the others.
- ConntrackCodec.LaidOutReads: the same; and a TCP or UDP tuple has both its ports.
- ConntrackCodec.FlowRoundTrip: the same; what a whole message with other addresses is parsed to is not determined here.
- ConntrackCodec.PortFlowRoundTrip: the same.
- ConntrackAlignment.TupleSurvivesExactly: addresses are of at most 16 bytes, and the destination is not empty.
- BridgeVlan.WriteTunnel: the branch with a tunnel number other than 0.
