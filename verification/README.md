# A model of the ai-dandelion wire codec and worker protocol

Two parts of ai-dandelion carry hard promises: the generated Protocol Buffers codec every service
speaks, and the start/stop protocol of the background runtimes of `func-operation`. This project
states both in Dafny and proves what they keep.

## The codec

The generated Go is one block of code per field, and the blocks differ only in the field number and
in the kind of the field. A `Schema.Table` lists field numbers and kinds (`string`/`bytes`, `bool`,
`int32`, `int64`, repeated `string`, nested message, repeated message); `Messages.dfy` holds the
tables of the twelve message types modelled. Each block of the generated code is one branch here:

- `Varint.dfy` is `encodeVarint…`, `sov…` and the shift loop; `Skip.dfy` is `skip…`.
- `Marshal.dfy` is `Size`, `MarshalToSizedBuffer`, `Marshal`, `MarshalTo` and `XXX_Marshal`. They are
  methods over an `array<byte>`, filled backwards from `i`, with reverse loops over repeated fields
  and recursive calls on a shorter buffer, as in the source.
- `Unmarshal.dfy` is `Unmarshal`: a `Receiver` object whose values the loop over `iNdEx` changes.
- `Generated.dfy` and `GeneratedStream.dfy` are three types once more with their Go fields, their blocks
  and their `switch` written out and the tags as the constants of the generated code: `MessageExtra`,
  `ImportSkillPackageReq` with its `Data` slice as an array that is overwritten in place, and
  `StreamMessageResp` with its two-byte tag and its nested message behind a pointer. They are proved
  to do what the table-driven methods do for their tables. `Blocks.dfy` has one method for each kind
  of block they are made of; the sixteen fields of `StreamMessageResp` are handled in consecutive groups.
- `Stream.dfy`, `StreamReq.dfy`, `Mcp.dfy` and `Bot.dfy` state the main laws for the Go structs, by field
  name, and which number, kind and constant tag each of their fields has.

Every method is proved against a small format: `Format.Encode` concatenates records in ascending
field order, `Format.Decode` folds records into a message. The laws are about that format.

- `Records.dfy` turns decoding into a fold over parsed records and shows the fold works on each field
  alone; `RoundTrip.dfy`, `Laws.dfy`, `Reencode.dfy` and `Acceptance.dfy` hold the theorems about inputs
  that are accepted, and about which are.
- `Wire.dfy` says the same in numbers and bytes: what each record does to its field, whatever was there;
  how each value is written; which error each malformed record gives, and what it leaves.
- `Refusals.dfy` is about inputs that are refused: what the receiver holds after an error, and which error is
  given.

What the statements assume:

- Go's `int` has 64 bits. Sums of an index and a length wrap at 2^64 (`Machine.WrapAdd`), and reading
  into `uint64`, `int`, `int64` or `int32` truncates, as in the code. `Fits` says that a byte string is
  shorter than 2^63, which any slice is.
- `Size` itself is a mathematical integer: encoding needs the whole encoding to be shorter than 2^63.
- Elements of repeated message fields are not nil. (`Size` accepts nil elements, the encoder does not.)
- A nil and an empty slice are the same value. `string` and `[]byte` are both raw bytes.
- Tables do not refer to themselves; no message type modelled here is recursive.
- `Agree` compares two decodings as far as they are accepted: both fail, or both give the same message.
  It is used where records change places, as then the first error can be another one. The methods are
  proved to give exactly the error of the format.

Which error a part of an input gives depends on what stands before it in one case only: the first record
that fails claims an end past the part, and that end is an `int` where the part starts at 0 but none where
it starts further on. Then, and only then, an unexpected end is reported as an invalid length
(`Refusals.DecodeMoved`; `Refusals.WrapShows` gives such inputs).

Three findings about the code. `XXX_Marshal` fills the end of the buffer's capacity but returns its
front, so it is right exactly when the capacity is the encoded size, as its caller arranges
(`Marshal.XxxMarshalNeedsExactCapacity`). And re-encoding an accepted input can be longer than the input: a
negative `int32` can arrive in five bytes and always leaves in ten. It never happens for types without
an `int32` anywhere inside, and always can for the others (`Reencode.NeverGrowsIffNoInt32`), by five
sixths of the input at most (`Reencode.ReencodeGrowth`, reached by `Reencode.FullGrowth`). And the scanner
accepts more than the encoding allows: a group may be closed by an end tag of another field
(`Skip.ScannerIsLaxer`).

## The runtimes

`Runtime.dfy` is the artifact and the outbox runtime, which share one shape: any number of Start
callers, Stop callers and worker goroutines, interleaved at every access to the mutex, to the two
package variables, to `cancel()` and to `<-done`. A tick and the body it calls (`ReconcileArtifactStore`,
`ProcessReady`) are an abstract call that begins and ends. When a tick and the cancelled context are
both ready either may be taken, so nothing is claimed about ticks between `cancel()` and exit.

The lock is released before `cancel()` and `<-done`, so a Start may overlap a Stop in progress and two
or more workers may be live at once. What holds is: live workers are at most one plus the Stops that
have taken a worker and not returned (`Runtime.LiveBound`), and that bound is reached for every number
of Stops (`Progress.BoundIsReached`). Exactly, they are the registered one, if it is alive, and one for
each of those Stops whose worker is alive (`Runtime.LiveCount`). `Progress.dfy` also shows that each Start and each Stop can still
return from every reachable state. `History.dfy` is about whole runs: a Start that was called with an
argument and has returned has made exactly one worker, or had the lock while one was registered; and a
worker is inside a call exactly when its last step was a tick.

`Shutdown.dfy` adds the loop that stops both runtimes and then the framework. When the framework's stop
begins both runtime Stops have returned, but that alone does not mean that no worker is left. The exact
condition is read off at the moment the loop's Stop gets the lock: all workers there are will have
exited if and only if no live worker has been taken out of the handles by another Stop
(`Leftover.StopIsComplete`, `Shutdown.ArtifactLeftBehind`, `Shutdown.OutboxLeftBehind`). Other Stops that
have returned, that found nothing or that wait for the lock do no harm.

## Model

| member | source | states |
|---|---|---|
| Machine.OrIsAdd | proto/ai-agent/message.pb.go:2496 | the or-assignment of a seven-bit group shifted above the bits read so far is truncated addition, for every accumulator width |
| Varint.SovIsLength | proto/ai-agent/message.pb.go:2475-2477 | `sov`, computed from the bit length of x with its low bit set, is the number of seven-bit groups for every x |
| Varint.EncodeShortest | proto/ai-agent/message.pb.go:2475-2477 | a number below 2^(7n) is encoded in at most n bytes |
| Varint.EncodeAtLeast | proto/ai-agent/message.pb.go:2475-2477 | a number of at least 2^(7n) needs more than n bytes |
| Varint.EncodeAtMostTen | proto/ai-agent/message.pb.go:2475-2477 | a 64-bit number takes at most ten bytes |
| Varint.EncodeDigits | proto/ai-agent/message.pb.go:2052-2057 | byte j of an encoding is the group of seven bits at 7j, with the high bit set exactly when another byte follows |
| Varint.AboveIsQuotient | proto/ai-agent/message.pb.go:2054 | shifting right by 7j is division by 2^(7j) |
| Varint.ReadOutcome | proto/ai-agent/message.pb.go:2487-2500 | a varint is read if and only if one of the first ten bytes is inside the input and below 0x80; it overflows if and only if ten bytes are there and none is; else the input ended |
| Varint.ReadDigits | proto/ai-agent/message.pb.go:2494-2499 | what is read ends at its first byte below 0x80 and holds the seven-bit groups of its bytes, least significant first |
| Varint.ReadIsNoShorter | proto/ai-agent/message.pb.go:2486-2500 | whatever the loop reads, overlong or with bits lost to the width, it consumed at least as many bytes as the shortest encoding of the value |
| Varint.VarintInverse | proto/ai-agent/message.pb.go:2049-2059 | inside any input, reading an encoded 64-bit value gives it back and consumes exactly `sov` bytes, between 1 and 10, and no bytes that read as this value are fewer |
| Varint.EncodeVarint | proto/ai-agent/message.pb.go:2049-2059 | writes exactly the encoding just before `offset`, returns where it starts, and leaves the rest of the buffer alone |
| Varint.ReadShifted | proto/ai-agent/message.pb.go:2487-2500 | the shift loop with a truncating accumulator of 64 or 32 bits gives the mathematical varint reduced to that width, the same errors and the same end, and when it fails the accumulator holds the groups read so far |
| Skip.ScanPayload | proto/ai-agent/message.pb.go:5481-5531 | one turn of the scanner by wire type, with wrapping index and negative-length errors |
| Skip.SkipRecordLoop | proto/ai-agent/message.pb.go:5460-5537 | the depth-counter loop computes the counter machine `SkipFrom`, errors included |
| Skip.SkipRecord | proto/ai-agent/message.pb.go:5464-5535 | at any depth the scanner passes over exactly one record of the recursive grammar, balanced groups included |
| Skip.Unwind | proto/ai-agent/message.pb.go:5517-5534 | from inside open groups, whatever the scanner accepts is a run of whole records and the end of the innermost group, then the same for the enclosing ones |
| Skip.SkipIsGrammar | proto/ai-agent/message.pb.go:5460-5537 | the scanner succeeds with n inside the input if and only if the first n bytes are one record of the grammar it accepts, and then n is at least 1 |
| Skip.ConformingSkips | proto/ai-agent/message.pb.go:5460-5537 | every record of the encoding's own grammar, with field numbers in range and groups closed by their own number, is stepped over whole |
| Skip.ScannerIsLaxer | proto/ai-agent/message.pb.go:5517-5523 | an input the scanner accepts that is no record of the encoding: a group closed by another number |
| Skip.FirstTag | proto/ai-agent/message.pb.go:5495-5527 | a lone end tag and the wire types 6 and 7 give their errors; fixed payloads are stepped over without a look at the end |
| Skip.FirstLength | proto/ai-agent/message.pb.go:5497-5516 | a length is refused when negative or when it carries the index past the largest `int`, else stepped over |
| Skip.OpenGroup | proto/ai-agent/message.pb.go:5517-5536 | a group that is not closed gives an unexpected end |
| Skip.FirstUnended | proto/ai-agent/message.pb.go:5483-5494 | a varint payload that does not end gives an overflow after ten bytes and an unexpected end before |
| Skip.SkipLocal | proto/ai-agent/message.pb.go:5460-5537 | a successful skip depends only on the bytes it passes over |
| Schema.MergeIntoZero | proto/ai-agent/message.pb.go:4724-4729 | merging a message into the zero message gives it back |
| Schema.MergeTyped | proto/ai-agent/message.pb.go:3465-3468 | merging keeps every field within its Go type |
| Schema.MergeAssociative | proto/ai-agent/message.pb.go:4724-4729 | recursive merge is associative at every nesting depth |
| Records.DecodeIsFold | proto/ai-agent/message.pb.go:3114-3278 | decoding is splitting the input into records and folding them into the receiver, with the same error if the input splits |
| Records.DecodeTyped | proto/ai-agent/agent_bot.pb.go:3432-3913 | whatever bytes are accepted, every field of the result is within its Go type |
| Records.Fieldwise | proto/ai-agent/message.pb.go:4402-4943 | the outcome of all records is, field by field, the fold of the payloads naming that field, and it succeeds if and only if every field's fold does |
| Records.ParseLocal | proto/ai-agent/message.pb.go:3118-3142 | a parsed record reads the same wherever its bytes stand in another input |
| Records.SplitConcat | proto/ai-agent/message.pb.go:3117-3272 | an input that splits into records splits the same way in front of any other bytes |
| RoundTrip.SplitEncoding | proto/ai-agent/message.pb.go:1402-1490 | an encoding splits into exactly the payloads of each field, in order, and nothing else |
| RoundTrip.FoldPayloads | proto/ai-agent/mcp.pb.go:1500-1532 | folding the payloads of one field's value into another value merges the two, repeated and nested fields included |
| RoundTrip.DecodeEncode | proto/ai-agent/message.pb.go:4402-4943 | decoding the encoding of y into any receiver holding x succeeds with the recursive merge of x and y |
| Laws.RoundTripLaw | proto/ai-agent/mcp.pb.go:1291-1703 | decoding the encoding of any message of any table into a zero receiver gives that message; repeated strings keep length, order and empty elements |
| Laws.EncodingIsInjective | proto/ai-agent/message.pb.go:1741-1872 | two messages with the same encoding are equal |
| Laws.DecodeConcat | proto/ai-agent/message.pb.go:4402-4943 | after an accepted prefix the rest is decoded into what the prefix left, with another outcome if and only if the first record that fails there claims an end that wraps behind the prefix; then an unexpected end becomes an invalid length |
| Laws.ConcatIsMerge | proto/ai-agent/message.pb.go:4402-4943 | decoding two concatenated encodings gives the recursive merge: set scalars of the second win, lists append, nested messages merge |
| Laws.Int32Survives | proto/ai-agent/agent_bot.pb.go:3557-3575 | every `int32`, negatives included, comes back from its 64-bit varint, and every negative one takes ten bytes |
| Laws.AcceptedIsRecords | proto/ai-agent/mcp.pb.go:1291-1703 | every accepted input is a concatenation of records |
| Laws.OrderIndependence | proto/ai-agent/mcp.pb.go:1291-1703 | two concatenations of records decode alike whenever each field's records come in the same order |
| Laws.SwapRecords | proto/ai-agent/mcp.pb.go:1291-1703 | swapping two adjacent records that are not of the same field changes nothing |
| Laws.Replace | proto/ai-agent/message.pb.go:4402-4943 | inside any input, a run of records may be replaced by any other with the same payloads per field |
| Laws.UnknownParses | proto/ai-agent/message.pb.go:4923-4936 | every well-formed record with a positive field number the message lacks is passed over whole |
| Laws.UnknownIsTransparent | proto/ai-agent/message.pb.go:4923-4936 | inserting such a record at any record boundary changes neither the message nor the error, except exactly when it pushes the end claimed by the first failing record past the largest `int` |
| Wire.LowBits | proto/ai-agent/message.pb.go:2501-2502 | the wire type is the low three bits and the field number bits 3 to 34 as an `int32`, whatever is above |
| Wire.NumberRecord | proto/ai-agent/agent_bot.pb.go:3557-3575 | a varint record, canonical or not, is always accepted; it leaves the truth of its 64 bits in a `bool` and the number with its low 32 or 64 bits in an `int32` or `int64`, whatever was there, and no other field changes |
| Wire.StringRecord | proto/ai-agent/mcp.pb.go:1500-1531 | a length-delimited record replaces a string and appends to a repeated string |
| Wire.MessageRecord | proto/ai-agent/message.pb.go:4710-4730 | one of a nested message is decoded into the message there or an empty one, one of a list into a new last element, and accepted exactly when its content is, with its error |
| Wire.LastOneWins | proto/ai-agent/message.pb.go:4655-4694 | after any accepted prefixes and into any receivers, a record of a scalar field leaves there a value that depends on that record alone |
| Wire.ExplicitDefault | proto/ai-agent/message.pb.go:4655-4674 | a record with one zero byte after its tag clears a `bool`, an integer or a string, whatever came before |
| Wire.StringIntoSlot | proto/ai-agent/message.pb.go:3143-3174 | a record with the constant tag of a string field sets exactly that field |
| Wire.BoolOnTheWire | proto/ai-agent/message.pb.go:1802-1811 | `true` is written as the tag and the byte 1, `false` as nothing |
| Wire.IntOnTheWire | proto/ai-agent/agent_bot.pb.go:1556-1560 | an integer other than 0 is written as its tag and the varint of its two's complement, ten bytes for every negative one |
| Wire.StringOnTheWire | proto/ai-agent/message.pb.go:1364-1369 | a string other than the empty one is written as its tag, length and bytes |
| Wire.ChildOnTheWire | proto/ai-agent/message.pb.go:1790-1801 | a nested message is written as its tag, length and encoding, a nil one as nothing |
| Wire.StringsOnTheWire | proto/ai-agent/mcp.pb.go:678-686 | repeated strings are written one after another, empty ones too |
| Wire.ChildrenOnTheWire | proto/ai-agent/message.pb.go:1447-1460 | repeated messages are written one after another, each with tag and length |
| Wire.MessageOnTheWire | proto/ai-agent/message.pb.go:1402-1490 | a message is the bytes of its fields one after another, by ascending field number, and nothing else |
| Wire.AscendingRecords | proto/ai-agent/message.pb.go:1402-1490 | the records of an encoding are all of known fields, and their field numbers never decrease |
| Wire.TagRefused | proto/ai-agent/message.pb.go:4424-4429 | a first tag of wire type 4 gives the end-group error, any other with a number that is 0 or negative the illegal-tag error |
| Wire.WireTypeRefused | proto/ai-agent/message.pb.go:4432-4434 | a known field with another wire type than its kind's gives the wire-type error |
| Wire.LengthRefusedFirst | proto/ai-agent/message.pb.go:3162-3172 | a length past the end gives an unexpected end, or an invalid length when the index would pass the largest `int` |
| Wire.TagUnended | proto/ai-agent/message.pb.go:4408-4421 | a first tag that does not end gives an overflow after ten bytes and an unexpected end before |
| Wire.BodyUnended | proto/ai-agent/message.pb.go:4436-4449 | so does a varint or a length after a known tag |
| Wire.UnknownSkipped | proto/ai-agent/message.pb.go:4923-4935 | a field the message lacks gives the scanner's error, an unexpected end when its record runs past the input, or is passed over |
| Acceptance.SplitIsGrammar | proto/ai-agent/message.pb.go:3279-3639 | the outer loop gets through an input if and only if the input is a run of grammar records with positive numbers and, for known fields, the field's wire type |
| Acceptance.DecodeOk | proto/ai-agent/message.pb.go:4724-4729 | whether an input is accepted does not depend on what the receiver held |
| Acceptance.AcceptedIffGrammar | proto/ai-agent/message.pb.go:4402-4943 | `Unmarshal` accepts an input if and only if it is in the language of the message type, nested contents included |
| Refusals.RefusedLeaves | proto/ai-agent/message.pb.go:3279-3639 | the records before the first bad one are decoded as if they were the whole input; the bad one touches one field at most, and only an integer, nested message or list of messages |
| Refusals.LeftTyped | proto/ai-agent/agent_bot.pb.go:3557-3575 | whatever the input, accepted or not, every field of the receiver stays within its Go type |
| Wire.BrokenShort | proto/ai-agent/agent_bot.pb.go:3561-3575 | an integer whose varint the input cuts off holds what it would hold, had a zero byte come next |
| Wire.BrokenLong | proto/ai-agent/agent_bot.pb.go:3562-3565 | one whose varint runs past ten bytes holds what it would hold, had the tenth been the last |
| Wire.BrokenElsewhere | proto/ai-agent/message.pb.go:4424-4451 | any other record that fails before its content is decoded leaves nothing at all |
| Wire.BrokenChild | proto/ai-agent/message.pb.go:3465-3468 | a nested message that refuses its content is left as that content's good records decode, but for one field of it at most; in a list it is the new last element |
| Refusals.ParseMoved | proto/ai-agent/message.pb.go:4923-4936 | a record, known or skipped, gives the same outcome wherever it stands, but for a claimed end that wraps there |
| Refusals.RefusedPrefix | proto/ai-agent/message.pb.go:4402-4943 | the error of a prefix made of whole records is the error of the whole input |
| Refusals.DecodeMoved | proto/ai-agent/message.pb.go:3162-3172 | what stands before a part changes its outcome if and only if the first record that fails claims an end past the part that is an `int` without those bytes and none with them; then an unexpected end becomes an invalid length |
| Refusals.WrapShows | proto/ai-agent/message.pb.go:3166-3172 | for every message type with a length-delimited field and every non-empty accepted prefix, an input whose error does change that way |
| Reencode.ParseCost | proto/ai-agent/message.pb.go:2481-3113 | a parsed record is no shorter than the shortest record carrying its payload, overlong varints and tags with excess bits included |
| Reencode.DecodeGrowth | proto/ai-agent/message.pb.go:2481-3113 | what decoding adds to the encoded size of the receiver is at most the bytes it consumed without `int32` fields, and eleven sixths of them with, at any nesting depth |
| Reencode.ReencodeGrowth | proto/ai-agent/agent_bot.pb.go:3432-3913 | for every message type and accepted input the re-encoding takes at most eleven sixths of the input's bytes |
| Reencode.FullGrowth | proto/ai-agent/agent_bot.pb.go:1603-1607 | an input of six bytes whose re-encoding has eleven, for every `int32` field numbered up to 15 |
| Reencode.ReencodeNeverGrows | proto/ai-agent/message.pb.go:2481-3113 | without `int32` fields at any depth, the encoding of the decoded message is no longer than the input |
| Reencode.CanonicalForm | proto/ai-agent/message.pb.go:2060-2141 | re-encoding gives a shortest form: it decodes to the same message, and two inputs have the same one if and only if they decode alike |
| Reencode.SomeInputGrows | proto/ai-agent/agent_bot.pb.go:3557-3575 | for a message type with an `int32` at any depth, an accepted input whose re-encoding is longer |
| Reencode.NeverGrowsIffNoInt32 | proto/ai-agent/agent_bot.pb.go:1556-1560 | re-encoding never grows if and only if the message type has no `int32` field at any depth |
| Marshal.ContentSize | proto/ai-agent/message.pb.go:2149-2152 | `1 + l + sov(l)`, with the tag's true length, is the encoded size of a length-delimited field |
| Marshal.FieldSize | proto/ai-agent/message.pb.go:2060-2141 | what `Size` adds for one field of any kind is the length of its records, two-byte tags included |
| Marshal.StringsSize | proto/ai-agent/mcp.pb.go:1039-1044 | the loop over repeated strings adds the length of their records, empty elements included |
| Marshal.ChildrenSize | proto/ai-agent/message.pb.go:2189-2194 | the loop over repeated messages adds the length of their records |
| Marshal.Size | proto/ai-agent/message.pb.go:2167-2217 | `Size` is exactly the length of the encoding of every message |
| Marshal.PutStrings | proto/ai-agent/mcp.pb.go:678-686 | the reverse loop over repeated strings leaves their records in list order |
| Marshal.PutChildren | proto/ai-agent/message.pb.go:1447-1460 | the reverse loop that encodes each child into a shorter buffer leaves their records in list order |
| Marshal.PutScalar | proto/ai-agent/agent_bot.pb.go:1603-1607 | one non-repeated block writes the field's record or nothing for the zero value: for `true` the tag and a 1, for an integer the varint of its two's complement, for a string its length and bytes |
| Marshal.PutField | proto/ai-agent/message.pb.go:1188-1336 | the block of any field writes exactly that field's records and leaves everything else in the buffer |
| Marshal.MarshalToSizedBuffer | proto/ai-agent/message.pb.go:1402-1490 | on any buffer at least `Size()` long: returns `Size()`, the end of the buffer is the forward encoding, the prefix is untouched |
| Marshal.MarshalNew | proto/ai-agent/message.pb.go:1173-1181 | `Marshal` returns a new buffer that holds exactly the encoding |
| Marshal.MarshalTo | proto/ai-agent/message.pb.go:1183-1186 | `MarshalTo` puts the same bytes at the front of a larger buffer and leaves the remainder |
| Marshal.XxxMarshal | proto/ai-agent/message.pb.go:58-69 | `XXX_Marshal` fills the end of the capacity and returns the front of it |
| Marshal.XxxMarshalNeedsExactCapacity | proto/ai-agent/message.pb.go:61-68 | that front is the encoding, whatever the buffer held, if and only if the capacity is the encoded size or nothing is encoded |
| Unmarshal.ContentEnd | proto/ai-agent/message.pb.go:3147-3172 | the length loop and its four checks give exactly the content the format reads, or its error |
| Unmarshal.SkipUnknown | proto/ai-agent/message.pb.go:3258-3270 | the default branch goes back to the tag and over one whole record, or gives its error |
| Unmarshal.Receiver.UnmarshalNumber | proto/ai-agent/message.pb.go:3239-3257 | a varint field is read with the truncation of its type; an integer is reset and gathered in place, so after an error it holds the groups read; other fields keep their values |
| Unmarshal.Receiver.UnmarshalContent | proto/ai-agent/message.pb.go:4710-4730 | a length-delimited field is replaced, appended to, or decoded into the message already there, as far as the nested decoding got |
| Unmarshal.Receiver.UnmarshalRecord | proto/ai-agent/message.pb.go:3118-3271 | one turn of the loop does to the receiver exactly what the parsed record means, or gives its error and leaves what a failing record leaves |
| Unmarshal.ReadTag | proto/ai-agent/message.pb.go:3119-3141 | the tag loop, `int32(wire >> 3)`, `wire & 0x7` and the two checks give the field number and wire type, or the error |
| Unmarshal.Receiver.Unmarshal | proto/ai-agent/message.pb.go:3279-3639 | ends on every input with the error or the message of the format, at a record inside the input or, if and only if there is no error, exactly at its end; after an error the receiver holds the records before that one and what that one left |
| Messages.AllWellFormed | proto/ai-agent/agent_bot.pb.go:251-266 | the field numbers of all modelled types are positive, in range and distinct, so the laws hold for each |
| Messages.TagBytes | proto/ai-agent/message.pb.go:1194-1334 | the tags of the format are the literal bytes the generated code writes, two bytes from field 16 on |
| Messages.NeverGrowing | proto/ai-agent/message.pb.go:27-47 | the modelled types without `int32`, to which the shrinking law applies |
| Messages.SometimesGrowing | proto/ai-agent/agent_bot.pb.go:251-266 | the modelled types that reach an `int32`, each of which has an accepted input with a longer re-encoding |
| Stream.RespMerges | proto/ai-agent/message.pb.go:667-683 | the merge of the table is, field by field, the merge of the Go structs |
| Stream.StreamRespRoundTrip | proto/ai-agent/message.pb.go:4402-4943 | decoding the encoding of any `StreamMessageResp` into a zero receiver gives that struct and no other, absent and empty nested messages told apart |
| Stream.StreamRespConcat | proto/ai-agent/message.pb.go:4402-4943 | decoding two concatenated encodings gives the struct merged by field |
| StreamReq.ExtraSlots | proto/ai-agent/message.pb.go:215-220 | the number, kind and constant tag of each named field of `MessageExtra` |
| StreamReq.PartSlotsLow | proto/ai-agent/message.pb.go:27-36 | the same for `MessagePart`, first fields |
| StreamReq.PartSlotsMiddle | proto/ai-agent/message.pb.go:37-44 | the same for `MessagePart`, middle fields |
| StreamReq.PartSlotsHigh | proto/ai-agent/message.pb.go:45-47 | the same for `MessagePart`, last fields |
| StreamReq.MessageSlotsLow | proto/ai-agent/message.pb.go:283-291 | the same for `Message`, first fields |
| StreamReq.MessageSlotsHigh | proto/ai-agent/message.pb.go:292-294 | the same for `Message`, last fields |
| StreamReq.RespSlotsLow | proto/ai-agent/message.pb.go:667-671 | the same for `StreamMessageResp`, first fields |
| StreamReq.RespSlotsMiddle | proto/ai-agent/message.pb.go:672-675 | the same for `StreamMessageResp`, middle fields |
| StreamReq.RespSlotsHigh | proto/ai-agent/message.pb.go:676-684 | the same for `StreamMessageResp`, last fields |
| StreamReq.ReqSlotsLow | proto/ai-agent/message.pb.go:527-535 | the same for `StreamMessageReq`, first fields |
| StreamReq.ReqSlotsHigh | proto/ai-agent/message.pb.go:536-540 | the same for `StreamMessageReq`, last fields |
| StreamReq.ReqRoundTrip | proto/ai-agent/message.pb.go:3945-4401 | decoding an encoded `StreamMessageReq` gives that struct and no other |
| StreamReq.ReqConcat | proto/ai-agent/message.pb.go:3945-4401 | decoding two end to end gives the struct merged by field, lists appended |
| Mcp.KVSlots | proto/ai-agent/mcp.pb.go:27-30 | the number, kind and tag of each field of `MCPKV` |
| Mcp.ServerSlotsLow | proto/ai-agent/mcp.pb.go:79-87 | the same for `AgentMCPServer`, first fields, the repeated `Args` among them |
| Mcp.ServerSlotsHigh | proto/ai-agent/mcp.pb.go:88-92 | the same for `AgentMCPServer`, last fields |
| Mcp.SaveSlots | proto/ai-agent/mcp.pb.go:307-310 | the same for `SaveMCPServerReq` |
| Mcp.ImportSlots | proto/ai-agent/skill.pb.go:387-391 | the same for `ImportSkillPackageReq` |
| Mcp.ServerRoundTrip | proto/ai-agent/mcp.pb.go:1291-1703 | decoding an encoded `AgentMCPServer` gives that struct and no other: arguments keep length, order and empty elements beside environment and headers |
| Mcp.ServerConcat | proto/ai-agent/mcp.pb.go:1291-1703 | decoding two end to end gives the struct merged by field, with arguments, environment and headers appended |
| Mcp.SaveRoundTrip | proto/ai-agent/mcp.pb.go:1906-2023 | the round trip for `SaveMCPServerReq`, a nil and an empty server told apart |
| Mcp.SaveConcat | proto/ai-agent/mcp.pb.go:1906-2023 | two requests end to end merge their servers |
| Mcp.ImportRoundTrip | proto/ai-agent/skill.pb.go:2414-2561 | the round trip for `ImportSkillPackageReq` |
| Mcp.ImportConcat | proto/ai-agent/skill.pb.go:2414-2561 | two of them end to end give the request merged by field |
| Mcp.ArgsRecord | proto/ai-agent/mcp.pb.go:1500-1531 | a record that starts with 0x3a appends its content to `Args` |
| Mcp.EnvRecord | proto/ai-agent/mcp.pb.go:1532-1565 | one that starts with 0x42 appends a pair to `Env` |
| Mcp.HeadersRecord | proto/ai-agent/mcp.pb.go:1598-1631 | one that starts with 0x52 appends a pair to `Headers` |
| Bot.ChannelSlotsLow | proto/ai-agent/agent_bot.pb.go:27-35 | the number, kind and tag of each field of `AgentBotChannel`, first fields |
| Bot.ChannelSlotsHigh | proto/ai-agent/agent_bot.pb.go:36-38 | the same, last fields |
| Bot.CapabilitySlots | proto/ai-agent/agent_bot.pb.go:151-159 | the same for `AgentBotCapability` |
| Bot.BotSlotsLow | proto/ai-agent/agent_bot.pb.go:251-259 | the same for `AgentBot`, first fields |
| Bot.BotSlotsHigh | proto/ai-agent/agent_bot.pb.go:260-266 | the same for `AgentBot`, last fields, the two lists among them |
| Bot.BotRoundTrip | proto/ai-agent/agent_bot.pb.go:3432-3913 | decoding an encoded `AgentBot` gives that struct and no other, for every `Status` and `MaxTurns` |
| Bot.BotConcat | proto/ai-agent/agent_bot.pb.go:3432-3913 | decoding two end to end gives the struct merged by field, channels and capabilities appended |
| Bot.StatusRecord | proto/ai-agent/agent_bot.pb.go:3557-3575 | a record that starts with 0x20 sets `Status` to the `int32` with the low 32 bits of its varint |
| Bot.MaxTurnsRecord | proto/ai-agent/agent_bot.pb.go:3768-3786 | one that starts with 0x58 sets `MaxTurns` |
| Bot.ChannelsRecord | proto/ai-agent/agent_bot.pb.go:3825-3858 | one that starts with 0x72 appends a channel |
| Bot.CapabilitiesRecord | proto/ai-agent/agent_bot.pb.go:3859-3892 | one that starts with 0x7a appends a capability |
| Blocks.StringBlock | proto/ai-agent/message.pb.go:1746-1754 | constant tag, length and content are the bytes put in front of the later fields' records, or none when the string is empty |
| Blocks.BoolBlock | proto/ai-agent/message.pb.go:1802-1811 | the constant tag and the byte 1 are the bytes put there for true, none for false |
| Blocks.Int32Block | proto/ai-agent/message.pb.go:1358-1362 | the constant tag and the varint of the two's complement are the bytes put there, none for zero |
| Blocks.ChildBlock | proto/ai-agent/message.pb.go:1790-1801 | a nested message is encoded into the buffer before `i`, an absent one writes nothing |
| Blocks.StringSize | proto/ai-agent/message.pb.go:2335-2338 | the size block adds exactly the bytes of the field's records |
| Blocks.ChildSize | proto/ai-agent/message.pb.go:2369-2372 | the size block of a nested message adds exactly the bytes of its record |
| Blocks.StringField | proto/ai-agent/message.pb.go:4623-4654 | the branch of a string field gives its content and end, or the error of the format |
| Blocks.BoolField | proto/ai-agent/message.pb.go:4655-4674 | the branch of a bool field gives its value and end, or the error of the format |
| Generated.MessageExtra.Size | proto/ai-agent/message.pb.go:2143-2165 | the four blocks add up to the length of the encoding |
| Generated.MessageExtra.MarshalToSizedBuffer | proto/ai-agent/message.pb.go:1353-1385 | the four blocks, last field first and with their constant tags, leave the forward encoding at the end of the buffer and the prefix untouched |
| Generated.MessageExtra.Assign | proto/ai-agent/message.pb.go:3142-3257 | the switch does to the named field what its table entry means, and nothing to the others |
| Generated.MessageExtra.UnmarshalRecord | proto/ai-agent/message.pb.go:3118-3271 | one turn of the loop does exactly what the parsed record means, errors and what they leave included |
| Generated.MessageExtra.Unmarshal | proto/ai-agent/message.pb.go:3114-3278 | accepts what the format accepts, leaves the message it means, and after an error what the format leaves |
| Generated.ImportSkillPackageReq.Size | proto/ai-agent/skill.pb.go:1452-1471 | the three blocks add up to the length of the encoding |
| Generated.ImportSkillPackageReq.MarshalToSizedBuffer | proto/ai-agent/skill.pb.go:1070-1097 | the three blocks leave the forward encoding of what the receiver held at the end of the buffer and the prefix untouched, even if that buffer is the array behind `Data` |
| Generated.ImportSkillPackageReq.ReplaceData | proto/ai-agent/skill.pb.go:2536-2539 | `Data` becomes the content: written over the same backing array, whose later bytes stay, exactly when it has room, else in a new array with the old one untouched |
| Generated.ImportSkillPackageReq.Assign | proto/ai-agent/skill.pb.go:2442-2540 | the switch does to the named field what its table entry means, the `Data` slice included |
| Generated.ImportSkillPackageReq.UnmarshalRecord | proto/ai-agent/skill.pb.go:2418-2554 | one turn of the loop does exactly what the parsed record means |
| Generated.ImportSkillPackageReq.Unmarshal | proto/ai-agent/skill.pb.go:2414-2561 | accepts what the format accepts and leaves the message it means; the array behind `Data` stays if and only if it has room for each of the contents the input brings for it, else it is a new one |
| GeneratedStream.StreamMessageResp.Size | proto/ai-agent/message.pb.go:2329-2398 | the sixteen blocks add up to the length of the encoding |
| GeneratedStream.StreamMessageResp.LowSlots | proto/ai-agent/message.pb.go:667-675 | which Go field has which number, kind and tag: fields 1 to 7 |
| GeneratedStream.StreamMessageResp.MiddleSlots | proto/ai-agent/message.pb.go:675-678 | fields 8 to 10 |
| GeneratedStream.StreamMessageResp.HighSlots | proto/ai-agent/message.pb.go:678-684 | fields 11 to 16 |
| GeneratedStream.StreamMessageResp.MarshalToSizedBuffer | proto/ai-agent/message.pb.go:1741-1872 | the sixteen blocks, last field first, two-byte tag and nested message included, leave the forward encoding at the end of the buffer and the prefix untouched |
| GeneratedStream.StreamMessageResp.UnmarshalMessage | proto/ai-agent/message.pb.go:4695-4730 | field 10 is decoded into the nested message already there, which stays the same object, or into a new one, and stays half-decoded after an error |
| GeneratedStream.StreamMessageResp.Assign | proto/ai-agent/message.pb.go:4430-4922 | the switch does to the named field what its table entry means, and nothing to the others |
| GeneratedStream.StreamMessageResp.UnmarshalRecord | proto/ai-agent/message.pb.go:4406-4937 | one turn of the loop does exactly what the parsed record means |
| GeneratedStream.StreamMessageResp.Unmarshal | proto/ai-agent/message.pb.go:4402-4943 | accepts what the format accepts, leaves the message it means or what the error leaves, and merges into the nested object that was there |
| Runtime.StepInv | func-operation/index/artifact_runtime.go:18-65 | every step of every Start, Stop and worker keeps the invariant of handles, lock, claims and workers |
| Runtime.ExecInv | func-operation/index/outbox_runtime.go:18-59 | the invariant holds after every run |
| Runtime.Ownership | func-operation/index/artifact_runtime.go:28-36 | in every interleaving the handles are both nil or of one worker, each live worker is registered or claimed by exactly one unfinished Stop and never both, no worker leaves its loop uncancelled, and done is closed exactly once, on exit |
| Runtime.LiveBound | func-operation/index/artifact_runtime.go:54-65 | live workers are at most one plus the Stops that have taken a worker and not returned |
| Runtime.LiveCount | func-operation/index/artifact_runtime.go:28-65 | in every reachable state the live workers are exactly the registered live one, if any, and one for each Stop in flight whose worker is alive |
| Runtime.TickerThenDone | func-operation/index/artifact_runtime.go:37-45 | on every run each worker stops its ticker and closes its done channel at most once, and closes it only after it stopped the ticker |
| Runtime.StopMeansStopped | func-operation/index/outbox_runtime.go:31-59 | when a Stop has returned, the worker it took has exited, with its ticker stopped and then its done channel closed once earlier in the run, and in no continuation does that worker take another step |
| Progress.StopCanReturn | func-operation/index/outbox_runtime.go:48-59 | from every reachable state every Stop caller can still return, in at most sixteen steps |
| Progress.StartCanReturn | func-operation/index/artifact_runtime.go:28-52 | from every reachable state every Start caller can still return, in at most nine steps |
| Progress.RunStart | func-operation/index/artifact_runtime.go:28-37 | with the lock free and no handles a Start runs through and registers a new worker |
| History.StartStartsOrMeets | func-operation/index/artifact_runtime.go:28-51 | on every run, a Start called with an argument that has returned made exactly one worker, which was spawned, or made none and had the lock earlier while a worker was registered |
| History.NilStartsNothing | func-operation/index/outbox_runtime.go:18-21 | a Start without an argument returns at once and no worker is ever its |
| History.NextStartMakes | func-operation/index/outbox_runtime.go:22-45 | from a state with the lock free and no handles, a Start that is the next to get the lock makes a new worker on every run on which it returns |
| History.TicksCall | func-operation/index/artifact_runtime.go:41-50 | on every run a worker is inside a call if and only if its last own step is a tick; between two of its ticks the call ends, and it sees the cancellation only outside a call |
| History.CallCanBegin | func-operation/index/outbox_runtime.go:35-43 | from every reachable state a spawned worker that is not cancelled is within two steps of a call, and one in its select even when it is |
| Progress.RunStop | func-operation/index/artifact_runtime.go:54-58 | a Stop that finds a registered worker takes it and frees the handles before cancelling it |
| Progress.BoundIsReached | func-operation/index/artifact_runtime.go:54-65 | for every n a run with n Stops in flight and n + 1 live workers |
| Leftover.FollowedRun | func-operation/index/artifact_runtime.go:54-65 | from the moment a Stop has the lock with no live worker taken by another, each worker there has exited, is registered until it copies the handles, or is its own, on every run |
| Leftover.ReturnsBeside | func-operation/index/artifact_runtime.go:59-64 | a Stop that has the lock can return while a worker that another Stop holds stays alive |
| Leftover.StopIsComplete | func-operation/index/outbox_runtime.go:48-59 | take a Stop that has just got the lock: all workers there have exited whenever it returns if and only if no live worker is in the hands of another Stop at that moment |
| Shutdown.LoopOnce | func-operation/cmd/root.go:61-79 | on every run the loop goes on until a non-nil error or a signal, whatever nil errors come; it wakes, stops each runtime and stops the framework at most once, in this order; all but one of the Stop calls of each runtime are other callers' |
| Shutdown.LoopWaits | func-operation/cmd/root.go:64-70 | it goes on from a runtime's Stop only when that has returned, and a nil error changes nothing |
| Shutdown.LoopCanEnd | func-operation/cmd/root.go:61-79 | it can wake whenever it loops, and end from every reachable state after that |
| Shutdown.ShutdownOrder | func-operation/cmd/root.go:58-80 | on every run, when the framework's stop begins both runtime Stops of the loop have returned, and every worker there was when they copied the handles has exited or is still held by another Stop that has not returned |
| Shutdown.ShutdownLeavesNoneBehind | func-operation/cmd/root.go:67-71 | at that point all those workers have exited if and only if no other Stop still holds one of them alive |
| Shutdown.ArtifactLeftBehind | func-operation/cmd/root.go:67-71 | when the loop's artifact Stop gets the lock: every artifact worker there has exited whenever the framework's stop begins, on every continuation, if and only if no live worker is in the hands of another Stop |
| Shutdown.OutboxLeftBehind | func-operation/cmd/root.go:73-77 | the same for the outbox Stop and the outbox workers |
| Shutdown.AnotherStopLeavesOneBehind | func-operation/index/artifact_runtime.go:54-65 | a run on which the condition fails: another Stop has taken the worker, and the framework's stop begins while it is live |

## Left out

- Unmarshal.Receiver.UnmarshalContent: a nested message is a value here; that the pointer in the receiver is reused is stated for `StreamMessageResp` only (GeneratedStream.StreamMessageResp.UnmarshalMessage), and that the `Data` slice is reused for `ImportSkillPackageReq` (Generated.ImportSkillPackageReq.ReplaceData).
- Generated.ImportSkillPackageReq.ReplaceData: a new backing array has exactly the length needed; how far Go's `append` grows it is not modelled, and the input does not share memory with the receiver.
- GeneratedStream.StreamMessageResp.Unmarshal: its nested `Message` is decoded through the table of that type; types other than the three written out are covered through their tables.
- Marshal.XxxMarshal: without the deterministic branch, which hands over to the gogo library.
- Marshal.MarshalToSizedBuffer: needs a buffer of at least `Size()` bytes; on a shorter one the code panics.
- Reencode.SomeInputGrows: for types nested less than 2^32 deep, so that the witness is a possible slice.
- Shutdown.ShutdownLeavesNoneBehind: is about the workers there were when the loop's Stops copied the handles; a Start after that makes a worker that the loop does not stop.
- Progress.StopCanReturn: is possibility, not fairness of the scheduler, as is Progress.StartCanReturn; a call in progress is taken to end.
- Messages that carry `grpcep.CommonResp`, whose codec is in a library that is not part of this model.
- `session.pb.go`, `agent_model.pb.go` and `conversation_operation.pb.go`: the same blocks with fewer kinds of field.
- Getters, `Reset`, `String`, descriptors, `XXX_Merge`, `XXX_DiscardUnknown` and the `soz` helpers: trivial, unused or handed to the library.
- gRPC stubs, configuration, `boot`, `global` and the other commands: wiring over libraries.
- What `ReconcileArtifactStore` and `ProcessReady` do, ticker periods, the default intervals of `StartArtifactRuntime` and the log lines.
- Whether strings are valid UTF-8: the code does not check.
