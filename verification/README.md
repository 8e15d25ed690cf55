# Verified model of a FIX engine

The project models the hard parts of a FIX engine and proves properties of them: the wire
codec, the stream framer, the session that ties them together, message recovery, and a set
of smaller algorithms. The live engine is written in Go; the receive path, the order id
generator, the text cipher and the enum caches belong to an older Python engine.

| modules | what they model |
|---|---|
| `ByteStrings`, `Collections`, `Wrappers` | byte strings with decimal printing and parsing in 64 bits, stock facts about sequences and maps |
| `Tags`, `Fragments`, `Wire`, `Messages` | canonical tag order, messages with nested groups, the two serialisers, BodyLength and CheckSum, the message class |
| `Specs`, `Codecs`, `RoundTrips`, `FirstTags` | dictionaries, the two parsers, parsing as the inverse of printing, and when exactly it is |
| `Framing`, `Streams`, `Readers` | finding a frame by BodyLength, the read loop on an arbitrarily cut stream |
| `Sessions`, `SeqManagers`, `Engines`, `Threads`, `EndToEnd` | shutdown as interleaved steps, sequence numbers, `SendMessage`, threads that send at the same time, and the way from one application to the other |
| `Resends`, `Receives`, `Heartbeats` | the ResendRequest handler, the receive protocol, the heartbeat monitor as a timed machine |
| `Validator`, `PathSearch`, `SpecBuilder` | dictionary validation, search in nested groups, component expansion |
| `BranchSequences`, `SimpleCrypt`, `EnumCaches` | branch sequence ids, the block stream cipher, lazily filled lookup caches |

`dafny verify dfyconfig.toml` checks everything. Code that works step by step is modelled by
methods with loops and by classes whose methods say what becomes of their fields; each is
proved against a function or predicate about which the lemmas then speak. Concurrent code is
a state machine over its steps, and statements about it hold for every run.

Go's `int` is 64 bits wide: addition wraps where it can matter, and numbers are parsed with
the range checks of the library. Maps are ranged over in arbitrary order. The clock, random
bytes, callbacks, the outcome of saves and of reads and writes are parameters. SHA-256, the
key derivation, base64, UTF-8, float and time parsing are functions about which only their
documented laws are assumed, as preconditions of the lemmas that need them.

## What the proofs show about the code

Most promises hold as documented. Where one does not, the code was kept, a concrete case is
proved, and so is the exact condition:

- "OnClose has started by the time Stop returns" holds in all runs exactly if at most one
  thread calls Stop (`Sessions.OnCloseStartedFirstIff`, `Sessions.TwoStops`). With
  two, one may return between the other's claim of the callback and its call.
- "Everything is closed when Stop returns" holds in all runs under the same condition
  (`Sessions.ShutFirstIff`): a second Stop call may return before the first one has closed the
  connection (`Sessions.ReturnsUnshut`).
- `findBodyLengthFrameEnd` fails on a slice exactly if the claimed length carries the end of
  the trailer past the largest int (`Framing.PanicsIff`, `Framing.PanicExample`).
- The order of tags is independent of map iteration exactly if no two tags share a sort key
  (`Fragments.OrderDeterminedIff`); the tags that clash are `-30..-1` and three numbers above
  `2^30 - 34` (`Tags.ReservedKeys`, `Fragments.TwoOrdersExample`).
- A message comes back from printing and parsing exactly if FirstTag is there and is the first
  tag in canonical order in every member of every group (`FirstTags.RoundTripIff`). If it is
  not, the group is read back empty (`RoundTrips.FirstTagMustLead`), or with fewer members
  (`FirstTags.HeadlessDiffers`), or members lose fields to the ones before them
  (`FirstTags.GarbledExample`).
- A repeating group without groups inside keeps to its count exactly if no more FirstTags follow
  than it states (`Codecs.MembersCountedIff`, `Codecs.OvercountExample`).
- FirstTag, said to be the first field of the XML, is overwritten by components. It is the first
  tag of a group that lists one exactly if no component reference supplies a tag, or the last
  that does supplies the same (`SpecBuilder.FirstTagIsOwnIff`, `SpecBuilder.OverwrittenExample`).
  Expanding component references ends exactly if they are acyclic (`SpecBuilder.EndsIff`,
  `SpecBuilder.CycleExample`).
- `LoadFix`, said to replace existing tags, merges over them. It replaces them exactly if every
  tag held before is parsed again (`Messages.ReplacesIff`, `Messages.MergeExample`).
- Concurrent callers of the sequence manager can leave a stale pair in the store; a single
  caller cannot (`SeqManagers.UpToDateIff`, `SeqManagers.StaleSaveWins`).
- When a save fails, `SendMessage` stamps MsgSeqNum 1 although a number has been consumed. The
  two agree exactly if the save works or the number is 1 (`Engines.StampedIsConsumedIff`,
  `EndToEnd.TwoFailedSaves`). A call that ToApp refuses has consumed a number, too: numbers are
  consecutive over a run exactly if saves work and no message comes behind a refused call
  (`EndToEnd.ConsecutiveIff`), and without a gap between them exactly if no refused call lies
  between two messages (`EndToEnd.NoGapIff`, `EndToEnd.RefusedCallExample`).
- Numbers are taken before frames are put on the queue: frames are accepted in the order of their
  numbers, in all interleavings, exactly if at most one thread sends (`Threads.IncreasingIff`,
  `Threads.TwoThreads`).
- A resend covers its range exactly if ToAdmin refuses none of its gap fills
  (`Resends.ResendCovers`, `Resends.RefusedExample`). The loop over the range ends exactly if the
  range is empty or ends below `2^63 - 1` (`Resends.LoopEndsIff`, `Resends.EndlessRequest`).
- A gap fill names the peer as its sender: it has the CompIDs turned around exactly if the two are
  the same (`Resends.GapFillCompIDsIff`, `Resends.GapFillCompIDsExample`).
- In the Python engine a late duplicate advances the expected number as if it were new, so that
  the next message is dropped, exactly if it is of a type that advances the number, or a reset
  or gap fill to a number ahead
  (`Receives.DuplicateSkipsNumber`, `Receives.SkippedExample`).
- A stop by the heartbeat monitor keeps its bounds exactly if no traffic came inside the tick
  that sent the TestRequest or inside the tick that stops (`Heartbeats.HeartbeatBound`,
  `Heartbeats.InterruptedRequestStopsEarly`, `Heartbeats.InterruptedTimeoutStopsAtOnce`).
- Encoding a decoded id gives the id back exactly if its number is not 0000, its branch not above
  the last one, and not a reserved one from the first one on
  (`BranchSequences.DecodedReadsBackIff`, `BranchSequences.ReservedExample`,
  `BranchSequences.NumberZeroExample`).
- Deleting an enum value by name and value fails on a known name exactly while the name cache is
  not filled (`EnumCaches.DeletionIff`, `EnumCaches.DeletionExample`).

## Model

| member | source | states |
|---|---|---|
| Tags.HeaderTagAt | gofixmsg/fixmsg/tags.go:44-49 | the header table and the sort map built from it agree at every header position |
| Tags.HeaderPositionOf | gofixmsg/fixmsg/tags.go:55-65 | a tag with a header position stands in the header table at that position, and is no trailer tag |
| Tags.UsualOrder | gofixmsg/fixmsg/tags.go:44-83 | by tag number: 8, 9, 35, 49, 56, 34, 43, 52, then body tags by number, then 93, 89, 10 |
| Tags.SortKeyCollision | gofixmsg/fixmsg/tags.go:75-83 | two 64-bit tags share a sort key if and only if they are equal or one is a body tag whose number plus 30 hits a reserved key |
| Tags.ReservedKeys | gofixmsg/fixmsg/tags.go:75-83 | those body tags are exactly -30..-1 and the three numbers above 2^30-34, less the tags with a fixed place |
| Tags.SortKeyInjective | gofixmsg/fixmsg/tags.go:75-83 | the sort key is injective on 1..2^30-34 |
| Fragments.OrderDeterminedIff | gofixmsg/fixmsg/fixmessage.go:248-257 | sorting by key alone gives one order, whatever order the map was ranged over in, if and only if no two tags of the map share a key |
| Fragments.TwoOrdersExample | gofixmsg/fixmsg/fixmessage.go:248-257 | tag 10 and body tag 2^30-31 may come in either order |
| Fragments.OrderInRange | gofixmsg/fixmsg/fixmessage.go:248-257 | on tags 1..2^30-34 every key-sorted listing is the canonical one |
| Fragments.OrderUnique | gofixmsg/fixmsg/fixmessage.go:248-257 | two canonical listings of one tag set are equal |
| Wire.SortTags | gofixmsg/fixmsg/fixmessage.go:248-257 | the sort returns the canonical listing for every order in which the map is ranged over |
| Wire.WriteFragment | gofixmsg/fixmsg/codec/codec.go:172-184 | the codec appends the rendering of the fields of the message in canonical order |
| Wire.WriteVal | gofixmsg/fixmsg/codec/codec.go:186-209 | a string is one field; a group is its count and then the fields of its members, at any depth |
| Wire.DefaultWriteFragment | gofixmsg/fixmsg/fixmessage.go:174-182 | the built-in loop appends the same fields, separated by SOH |
| Wire.DefaultWriteField | gofixmsg/fixmsg/fixmessage.go:184-207 | the same for one value of the built-in serialiser |
| Messages.Serialise | gofixmsg/fixmsg/codec/codec.go:172-184 | Codec.Serialise is the rendering of the message fields with the codec separator |
| Messages.DefaultSerialise | gofixmsg/fixmsg/fixmessage.go:174-182 | defaultSerialise is that rendering with SOH, so the two agree on every nested message when the separator is SOH |
| Wire.BuildBody | gofixmsg/fixmsg/fixmessage.go:236-245 | the body is the rendering of all fields but 8, 9 and 10, in canonical order |
| Wire.BodyOrder | gofixmsg/fixmsg/fixmessage.go:236-245 | leaving the three tags out of the sorted list is sorting the other tags |
| Wire.AddBytes | gofixmsg/fixmsg/fixmessage.go:105-112 | the checksum loop adds up all bytes |
| Wire.SetLenAndChecksum | gofixmsg/fixmsg/fixmessage.go:99-115 | the stamped message holds the byte count of the body and the byte sum of prefix and body mod 256 |
| Wire.ThreeDigitsValue | gofixmsg/fixmsg/fixmessage.go:114 | three digits denote the number they are printed from |
| Wire.CanonicalOrder | gofixmsg/fixmsg/tags.go:75-83 | tags 8 and 9 come first and tag 10 last, each of them if it is present |
| Wire.BeginStringLeads | gofixmsg/fixmsg/tags.go:75-83 | a listing with tag 8 is tag 8 and then the listing of the others |
| Wire.CheckSumTrails | gofixmsg/fixmsg/tags.go:75-83 | a listing with tag 10 is the listing of the others and then tag 10 |
| Wire.WireShape | gofixmsg/fixmsg/fixmessage.go:61-115 | what ToWire prints is 8=..., 9=true length, the body, and 10=true sum of everything before it |
| Wire.WireIs | gofixmsg/fixmsg/fixmessage.go:61-115 | byte by byte: "8=" begin SOH "9=" number SOH body "10=" three digits SOH, where the number stands for the byte count of the body, and the digits for the sum of all bytes in front of "10=" modulo 256 |
| Wire.StampedIdempotent | gofixmsg/fixmsg/fixmessage.go:99-115 | stamping twice is stamping once |
| Messages.FixMessage.SetLenAndChecksum | gofixmsg/fixmsg/fixmessage.go:99-115 | the message object holds its stamped content afterwards |
| Messages.FixMessage.ToWire | gofixmsg/fixmsg/fixmessage.go:61-67 | stamps the message in place and returns its bytes, with the codec separator if there is a codec |
| Messages.PrintedEnds | gofixmsg/fixmsg/fixmessage.go:61-67 | the last byte printed is the separator of the codec, SOH without one |
| Messages.ReplacesIff | gofixmsg/fixmsg/fixmessage.go:69-89 | after LoadFix the message holds what was parsed and nothing else if and only if every tag it held before was parsed again |
| Messages.MergeExample | gofixmsg/fixmsg/fixmessage.go:69-89 | a message with tag 11 still holds it after loading a buffer with tag 55 alone |
| Messages.FixMessage.LoadFix | gofixmsg/fixmsg/fixmessage.go:71-89 | merges the parsed fields over the old ones, or changes nothing when the buffer is malformed |
| Codecs.Tokenise | gofixmsg/fixmsg/codec/codec.go:211-226 | splits at the separator, skips empty fields, and fails on a field without an equals sign |
| ByteStrings.JoinSplit | gofixmsg/fixmsg/codec/codec.go:211-226 | joining the parts that splitting gives is the text again |
| ByteStrings.SplitClean | gofixmsg/fixmsg/codec/codec.go:211-226 | no part holds the separator |
| Codecs.PairsAreFields | gofixmsg/fixmsg/codec/codec.go:211-226 | a text has pairs if and only if each field that is not empty holds a "=", and the pairs are then those fields, in order, cut at their first "=" |
| Codecs.ReadGroup | gofixmsg/fixmsg/codec/codec.go:119-169 | the group loop with its offset reads what the recursive definition of a group reads, on any input, and ends |
| Codecs.ReadMessage | gofixmsg/fixmsg/codec/codec.go:89-117 | the message loop with its index does the same for a message spec |
| Codecs.Parse | gofixmsg/fixmsg/codec/codec.go:50-117 | Parse is the parser function of the codec on every buffer, error cases included |
| Codecs.TypeDecides | gofixmsg/fixmsg/codec/codec.go:63-75 | the first tag 35 selects the message spec, if and only if it is among the first six pairs and the dictionary knows its value |
| Codecs.LastPairWins | gofixmsg/fixmsg/codec/codec.go:77-86 | in the flat parse a tag has the value of its last pair |
| Codecs.OtherTagsStay | gofixmsg/fixmsg/codec/codec.go:77-86 | and a tag without a pair is not touched |
| Codecs.ReadsFlat | gofixmsg/fixmsg/codec/codec.go:50-86 | a codec without a dictionary, or told to ignore groups, reads flat, with SOH for a zero separator |
| Codecs.NoGroupIsFlat | gofixmsg/fixmsg/codec/codec.go:89-117 | where no pair counts a group of the dictionary, the message is read flat; pairs whose tag is no number are skipped |
| Codecs.BadCount | gofixmsg/fixmsg/codec/codec.go:98-109 | the message is refused if the first group that is counted has a count that is no number |
| Codecs.GroupReads | gofixmsg/fixmsg/codec/codec.go:119-169 | on any pairs: each member has FirstTag and only tags of the group, reading stops early only in front of a pair that can not belong to the group, and at most one member, merely begun, goes beyond the count |
| Codecs.MembersCountedIff | gofixmsg/fixmsg/codec/codec.go:119-169 | a group without groups inside keeps to its count if and only if no more FirstTags than that follow it |
| Codecs.OvercountExample | gofixmsg/fixmsg/codec/codec.go:119-169 | a group counted as one and followed by two FirstTags is read as two members |
| Codecs.DefaultParse | gofixmsg/fixmsg/fixmessage.go:210-232 | the one-pass parser returns the flat parse of the tokens |
| Codecs.PlainParsed | gofixmsg/fixmsg/codec/codec.go:50-86 | a codec without a dictionary returns the same, so it agrees with defaultParse on every buffer |
| ByteStrings.AtoiItoa | gofixmsg/fixmsg/codec/codec.go:89-117 | tag numbers and counts survive printing and parsing over the whole range of int |
| ByteStrings.AtoiIff | gofixmsg/fixmsg/codec/codec.go:89-117 | a text is read as n if and only if it is the digits of |n| behind zeros and a sign or none, and n fits 64 bits |
| ByteStrings.ErrorDropped | gofixmsg/engine/handler/handlers.go:154-162 | where the error is dropped, no number counts as zero, and too large a number as the largest int |
| RoundTrips.TokensOfRender | gofixmsg/fixmsg/codec/codec.go:211-226 | tokenising rendered fields gives the fields back, whatever equals signs their values hold |
| RoundTrips.FlatRoundTrip | gofixmsg/fixmsg/codec/codec.go:50-86 | Parse(Serialise(m)) = m for flat messages |
| RoundTrips.ParseMembers | gofixmsg/fixmsg/codec/codec.go:119-169 | reading printed members behind any pairs that may follow gives the members back and stops in front of those pairs |
| RoundTrips.ParseNested | gofixmsg/fixmsg/codec/codec.go:119-169 | the same for a count and a group, at any nesting depth |
| RoundTrips.FirstTagMustLead | gofixmsg/fixmsg/codec/codec.go:119-169 | if the first member prints another tag before FirstTag, the group is read back empty |
| FirstTags.GroupReadBackIff | gofixmsg/fixmsg/codec/codec.go:119-169 | a printed group is read back if and only if FirstTag is there and is the first tag in canonical order in each of its members, and in the members of all groups inside it |
| FirstTags.RoundTripIff | gofixmsg/fixmsg/codec/codec.go:50-209 | for a message of the shape of its dictionary, with groups at any depth, Parse(Serialise(m)) = m if and only if FirstTag is there and leads in every member of every group |
| FirstTags.HeadlessDiffers | gofixmsg/fixmsg/codec/codec.go:119-169 | a group with a member that lacks FirstTag comes back with fewer members |
| FirstTags.CountedDiffers | gofixmsg/fixmsg/codec/codec.go:119-169 | a group in which FirstTag is missing or does not lead somewhere is never read back, whatever follows it |
| FirstTags.GarbledExample | gofixmsg/fixmsg/codec/codec.go:119-169 | with FirstTag 6 behind tag 5 in the second of two members, the first one ends up with tag 5 |
| RoundTrips.TypeIsFound | gofixmsg/fixmsg/codec/codec.go:63-75 | the message type is among the first six pairs of a printed message, so the right spec is found |
| RoundTrips.NestedRoundTrip | gofixmsg/fixmsg/codec/codec.go:50-209 | Parse(Serialise(m)) = m for every conforming message with groups at any depth |
| RoundTrips.MessageRoundTrip | gofixmsg/fixmsg/codec/codec.go:50-209 | the same from the message type alone, for a codec whose dictionary knows it |
| Messages.PrintedMessageParses | gofixmsg/fixmsg/fixmessage.go:210-232 | a flat message printed by ToWire parses back to its fields with true BodyLength and CheckSum |
| Messages.ParsedIsFlat | gofixmsg/fixmsg/fixmessage.go:210-232 | what is parsed without a dictionary is always flat, hence survives another ToWire and parse |
| Framing.ScanItoa | gofixmsg/engine/session/session.go:301-307 | reading a printed number with the %d verb gives the number |
| Framing.ScanOf | gofixmsg/engine/session/session.go:301-307 | blanks, a sign or none, digits and a rest: the %d verb reads those digits, or nothing if they do not fit |
| Framing.ScanSplits | gofixmsg/engine/session/session.go:301-307 | it reads a number from no other text |
| Framing.PanicsIff | gofixmsg/engine/session/session.go:309-322 | with wrapping addition the finder panics if and only if the end of the trailer passes the largest int |
| Framing.PanicExample | gofixmsg/engine/session/session.go:309-322 | a 25 byte header that claims 2^63-1 body bytes makes it panic |
| Framing.FrameEndIff | gofixmsg/engine/session/session.go:275-334 | the finder reports end e if and only if the first e bytes are "8=" begin SOH "9=" number SOH, a body of that many bytes, "10=", three digits and SOH |
| Framing.FindBodySplits | gofixmsg/engine/session/session.go:275-317 | a length is found only behind a BeginString field and a BodyLength field, and then it is the one they state |
| Framing.FindBodyPrefix | gofixmsg/engine/session/session.go:275-317 | cutting a buffer behind the two fields keeps the length, cutting inside them leaves none |
| Framing.FrameEndStable | gofixmsg/engine/session/session.go:275-334 | appending bytes never moves a frame end |
| Framing.FrameIsMinimal | gofixmsg/engine/session/session.go:275-334 | the cut prefix is a frame by itself and no proper prefix of it is one |
| Framing.FrameOf | gofixmsg/engine/session/session.go:275-334 | a header with the true length, any body and a trailer form a frame whatever follows |
| Framing.FinderIsScanner | gofixmsg/engine/session/session.go:275-334 | the finder meets everything the chunk independence theorem asks of it |
| Messages.PrintedMessageIsFramed | gofixmsg/fixmsg/fixmessage.go:61-115 | the finder cuts ToWire(m) + rest exactly behind ToWire(m), whatever bytes the values and the rest hold |
| Streams.DrainAppend | gofixmsg/engine/session/session.go:168-196 | draining a buffer and then its residue with later bytes is draining all of it at once |
| Streams.ChunkIndependence | gofixmsg/engine/session/session.go:154-208 | two ways of cutting one stream into reads give the same frames, the same panic and the same residue |
| Streams.DrainOfFrames | gofixmsg/engine/session/session.go:168-196 | a run of frames followed by bytes without a frame drains to exactly those frames and bytes |
| Streams.DrainOfPrefix | gofixmsg/engine/session/session.go:168-196 | any prefix of a run of frames drains to a prefix of the frames, without a panic |
| Readers.Reader.Dispatch | gofixmsg/engine/session/session.go:177-194 | each frame is parsed without a dictionary; what parses is handed on, what does not is skipped |
| Readers.Reader.Extract | gofixmsg/engine/session/session.go:172-196 | the inner loop cuts off what draining the buffer gives |
| Readers.Reader.ReadLoop | gofixmsg/engine/session/session.go:154-208 | for all read sizes, time-outs, errors and cancellations the messages handed on are those of the whole stream drained at once |
| Readers.StreamIs | gofixmsg/engine/session/session.go:154-208 | that stream, from the turns: all data up to the first turn that is cancelled or fails, time-outs included; a cancelled turn adds nothing, a failing one its own data, and later turns nothing |
| Readers.TimeoutExample | gofixmsg/engine/session/session.go:199-208 | 30 quiet seconds and then some bytes: the bytes count |
| Sessions.ControlKept | gofixmsg/engine/session/session.go:72-150 | every step of the loops, abort and Stop keeps: one thread in the closing section, one claimant of the callback |
| Sessions.WireKept | gofixmsg/engine/session/session.go:211-263 | every step keeps the bytes on the connection in step with the frames taken from the queue |
| Sessions.SenderKept | gofixmsg/engine/session/session.go:242-263 | every step keeps each sender's accepted frames a prefix of its program, and refusal final |
| Sessions.RunKeepsInv | gofixmsg/engine/session/session.go:72-263 | all invariants hold after every interleaving of any number of Stop and Send callers |
| Sessions.ShutdownSafety | gofixmsg/engine/session/session.go:72-263 | the channel is closed at most once, OnClose starts at most once, and the connection holds a prefix of the accepted frames in order |
| Sessions.WinnerKept | gofixmsg/engine/session/session.go:72-150 | every step keeps the thread that set closed inside the closing section, or past it and on its way to the claim of the callback |
| Sessions.FlagsKept | gofixmsg/engine/session/session.go:72-150 | every step keeps: cancelled before the connection is closed, and both before the channel is closed |
| Sessions.ExactlyOnce | gofixmsg/engine/session/session.go:72-150 | when both loops and all Stop calls have ended, the context is cancelled, the connection and the channel are closed, the channel exactly once, and OnClose was started exactly once |
| Sessions.NeverStuck | gofixmsg/engine/session/session.go:72-240 | as long as a loop or a Stop call has not ended, one of them can take a step |
| Sessions.AcceptedIsPrefix | gofixmsg/engine/session/session.go:242-263 | the frames of one sender are accepted in order without a gap, even if it ignores errors |
| Sessions.NothingBehindAPiece | gofixmsg/engine/session/session.go:211-240 | in every run the connection is closed when it holds a part of a frame that is not being written, and the write loop ends only after a cancellation or on a closed connection |
| Sessions.NothingAcceptedLate | gofixmsg/engine/session/session.go:242-263 | once the channel is closed no frame is accepted |
| Sessions.StopWaits | gofixmsg/engine/session/session.go:129-150 | when Stop returns both loops have ended and the callback is claimed, and everything is closed unless another Stop call is still closing; if the callback has not started, another Stop call is about to start it |
| Sessions.TwoStops | gofixmsg/engine/session/session.go:72-150 | with two Stop callers there is a run in which one returns before OnClose has started |
| Sessions.OnCloseStartedFirstIff | gofixmsg/engine/session/session.go:72-150 | in all runs OnClose has started when a Stop call returns, if and only if at most one thread calls Stop |
| Sessions.ReturnsUnshut | gofixmsg/engine/session/session.go:72-150 | with two Stop callers there is a run in which one returns before the other has closed the connection |
| Sessions.ShutFirstIff | gofixmsg/engine/session/session.go:72-150 | in all runs everything is closed when a Stop call returns, if and only if at most one thread calls Stop |
| Sessions.SenderGoesOn | gofixmsg/engine/session/session.go:242-263 | a sender inside Send can go on, unless the queue is full and nothing has been shut down |
| SeqManagers.SeqManager.constructor | gofixmsg/engine/seqnum.go:19-34 | starts from the stored numbers, reading missing and non-positive ones as zero |
| SeqManagers.SeqManager.IncrementOutgoing | gofixmsg/engine/seqnum.go:87-98 | advances the outgoing number by one, even when the save fails, leaves the incoming one, and stores the new pair when it does not fail |
| SeqManagers.SeqManager.IncrementIncoming | gofixmsg/engine/seqnum.go:74-85 | the same for the incoming number, with the outgoing one left alone |
| SeqManagers.SeqManager.SetIncoming | gofixmsg/engine/seqnum.go:48-59 | the incoming number is n, the outgoing one is what it was, and the pair is stored unless the save fails |
| SeqManagers.SeqManager.SetOutgoing | gofixmsg/engine/seqnum.go:61-72 | the same for the outgoing number |
| SeqManagers.StoredPairOnceHeld | gofixmsg/engine/seqnum.go:48-98 | in every interleaving the stored pair is the initial one or one that memory once held |
| SeqManagers.HandedConsecutive | gofixmsg/engine/seqnum.go:87-98 | while nobody sets the outgoing number, the numbers handed out are consecutive, in every interleaving |
| SeqManagers.BothCount | gofixmsg/engine/seqnum.go:74-98 | while nobody sets a number, each of the two has advanced by the number of its own increments, in every interleaving |
| SeqManagers.SequentialReload | gofixmsg/engine/seqnum.go:19-98 | after a sequential run reloading gives the pair in memory if and only if neither number is negative |
| SeqManagers.StaleSaveWins | gofixmsg/engine/seqnum.go:48-98 | two callers can leave an older pair in the store than memory holds |
| SeqManagers.UpToDateIff | gofixmsg/engine/seqnum.go:19-98 | all quiet runs with working saves leave the store up to date if and only if there is a single caller |
| Engines.FixEngine.Complete | gofixmsg/engine/engine.go:296-326 | fills in CompIDs, MsgSeqNum and SendingTime where they are missing; after a failed save the number is consumed and 1 is stamped |
| Engines.OutgoingHeader | gofixmsg/engine/engine.go:296-326 | tags 49, 56, 34 and 52 keep the value of the caller or get the sender of the engine, "S" if there is none, its target, or "T", the number, and the time |
| Engines.OtherTagsKept | gofixmsg/engine/engine.go:296-326 | all other tags are those of the caller |
| Engines.NumberTakenIff | gofixmsg/engine/engine.go:312-326 | the outgoing number advances by one if and only if the message has no tag 34, and the incoming one stays |
| Engines.HeldBackIff | gofixmsg/engine/engine.go:336-345 | a message is held back if and only if ToApp refuses it and it has a type that is none of A, 0, 1, 2, 3, 4 and 5 |
| Engines.StampedIsConsumedIff | gofixmsg/engine/engine.go:296-326 | the number stamped is the number consumed if and only if the save works or the number is 1 |
| Engines.FixEngine.SendMessage | gofixmsg/engine/engine.go:296-360 | hands exactly one printed frame to Send unless ToApp refuses, and consumes a number even then |
| EndToEnd.HandedFrames | gofixmsg/engine/engine.go:296-360 | sequential calls without a MsgSeqNum of their own consume one number each and hand over one frame for each that ToApp does not refuse |
| EndToEnd.ConsecutiveIff | gofixmsg/engine/engine.go:296-334 | the messages handed over carry the numbers that follow without a gap if and only if none of them comes behind a refused call, and every save works or belongs to number 1 |
| EndToEnd.NoGapIff | gofixmsg/engine/engine.go:296-360 | with working saves there is no gap between the numbers handed over if and only if no refused call lies between two that get through |
| EndToEnd.RefusedCallExample | gofixmsg/engine/engine.go:296-360 | a refused call in front: the message behind it carries the second number |
| EndToEnd.ThroughComplete | gofixmsg/engine/engine.go:336-345 | no call that ToApp lets through is missing |
| EndToEnd.TwoFailedSaves | gofixmsg/engine/engine.go:296-334 | two calls whose saves fail hand over MsgSeqNum 1 twice |
| EndToEnd.WireIsPrefix | gofixmsg/engine/session/session.go:211-263 | what reaches the connection is a prefix of the frames a single sender handed to Send |
| Threads.RunNumbers | gofixmsg/engine/engine.go:296-360 | in every interleaving of calls of SendMessage each accepted frame has the number its call took |
| Threads.OneThread | gofixmsg/engine/engine.go:296-360 | a single thread that sends gets its frames accepted with increasing MsgSeqNums, in every run of the session and the sequence manager |
| Threads.TwoThreads | gofixmsg/engine/engine.go:296-360 | as soon as two threads have a frame to send there is a run in which a larger number is accepted in front of a smaller one |
| Threads.IncreasingIff | gofixmsg/engine/engine.go:296-360 | with working saves frames are accepted in the order of the numbers stamped on them, in all interleavings, if and only if at most one thread sends |
| EndToEnd.ReadBack | gofixmsg/engine/session/session.go:154-208 | reading any prefix of printed messages gives a prefix of the messages |
| EndToEnd.DeliveredIsPrefix | gofixmsg/engine/engine.go:296-360 | sender, session with any shutdown, and the peer's read loop on any part of what was written: the peer delivers a prefix of exactly the completed messages that ToApp let through, all of them once it has read all bytes |
| EndToEnd.ExpectedFields | gofixmsg/engine/engine.go:296-334 | each delivered message carries the caller's fields and no others but header fields, the CompIDs of the engine and the time of its call where they were missing, and the number stamped for its call |
| Resends.HandleResendRequest | gofixmsg/engine/handler/handlers.go:139-267 | in any number of turns the handler sends exactly the answers for the numbers taken, from BeginSeqNo up to EndSeqNo (zero or none meaning the last number sent), and moves no counter |
| Resends.RangeOf | gofixmsg/engine/handler/handlers.go:154-171 | tag 7 is the first number; tag 16 the last one, or the last number sent if it is missing, zero or no number |
| Resends.AnswerToRequest | gofixmsg/engine/handler/handlers.go:169-263 | what is stored under sender tag 56, target tag 49 and the number is replayed if it parses and its type is none of A, 5, 2, 0, 1, 4; any other number gets a gap fill, unless ToAdmin is asked and refuses |
| Resends.GapFillCompIDsIff | gofixmsg/engine/handler/handlers.go:169-263 | a gap fill has the CompIDs turned around, as its addressee needs them, if and only if the two are the same |
| Resends.GapFillCompIDsExample | gofixmsg/engine/handler/handlers.go:169-263 | the gap fill for a request from S names S as its sender |
| Resends.ResentIs | gofixmsg/engine/handler/handlers.go:139-267 | the frames handed over are those of the answers to exactly the range of the request |
| Resends.AnswerRange | gofixmsg/engine/handler/handlers.go:171-264 | the loop sends the answers number by number, and is done after so many turns if and only if the counter has passed the end |
| Resends.LoopEndsIff | gofixmsg/engine/handler/handlers.go:171-264 | with a 64-bit counter the loop ends if and only if the range is empty or its end is below 2^63-1 |
| Resends.EndlessRequest | gofixmsg/engine/handler/handlers.go:154-171 | an EndSeqNo of 2^63-1 or more makes the loop endless, whatever BeginSeqNo is |
| Resends.AnswersForAll | gofixmsg/engine/handler/handlers.go:171-264 | any other range is answered in full, after as many turns as it has numbers |
| Resends.AnswerNumber | gofixmsg/engine/handler/handlers.go:172-263 | one number: replay, gap fill, or nothing if ToAdmin refuses the gap fill |
| Resends.SkipNumber | gofixmsg/engine/handler/handlers.go:181-200 | a gap fill carries the skipped number, NewSeqNo one above it and PossDupFlag |
| Resends.ReplayStored | gofixmsg/engine/handler/handlers.go:203-222 | a replay sets PossDupFlag and SendingTime, and OrigSendingTime if it is missing |
| Resends.AnswerCovers | gofixmsg/engine/handler/handlers.go:171-264 | every answer has the requested number, is a possible duplicate, and is no session message but a gap fill to the next number |
| Resends.OneMessageEach | gofixmsg/engine/handler/handlers.go:171-264 | if nothing is refused there is one message per number, in order |
| Resends.HearAnswers | gofixmsg/engine/handler/handlers.go:171-264 | a receiver that understands gap fills ends at the first number without an answer |
| Resends.ResendCovers | gofixmsg/engine/handler/handlers.go:139-267 | over the wire, in reads of any size, the receiver moves from BeginSeqNo to EndSeqNo + 1 if and only if ToAdmin accepts the gap fill of every number that is not stored or has a session message stored |
| Resends.RequestCovers | gofixmsg/engine/handler/handlers.go:139-267 | the same from the request and the store: the receiver moves through the range its request names if and only if ToAdmin refuses none of the gap fills it is asked about |
| Resends.RefusedExample | gofixmsg/engine/handler/handlers.go:171-264 | two numbers that are not stored, the first of them refused: the receiver stays where it was |
| Resends.UnansweredIff | gofixmsg/engine/handler/handlers.go:171-264 | a number goes unanswered if and only if ToAdmin refuses its gap fill; a body that does not parse is skipped without asking |
| Resends.ReplayFields | gofixmsg/engine/handler/handlers.go:203-210 | which fields a replay sets, and to what |
| Resends.ReplayKeepsTheRest | gofixmsg/engine/handler/handlers.go:203-222 | a replay differs from the stored message in tags 9, 10, 43, 52 and 122 only |
| Receives.MessageStore.SetIncoming | zz_archive/pyfixmsg_plus/fixengine/database_message_store.py:148-156 | numbers below 1 are ignored |
| Receives.ReceivePath.HandleSequenceReset | zz_archive/pyfixmsg_plus/fixengine/message_handler.py:282-316 | a reset past its own number and the expected one sets both counters and is answered with a Heartbeat; any other is rejected and moves neither |
| Receives.ReceivePath.ProcessMessage | zz_archive/pyfixmsg_plus/fixengine/engine.py:435-502 | the new state, the message handed on, the ResendRequest sent and the reply to a reset are those of the step function, in every branch |
| Receives.GapIsRequested | zz_archive/pyfixmsg_plus/fixengine/engine.py:474-483 | a message ahead is dropped, and the expected number is requested unless a request for it is outstanding |
| Receives.ExpectedIsHanded | zz_archive/pyfixmsg_plus/fixengine/engine.py:485-502 | the expected message is handed on, ends the wait for a resend, and advances the number by one unless it is a Logon, Logout or SequenceReset |
| Receives.LowIsDropped | zz_archive/pyfixmsg_plus/fixengine/engine.py:465-473 | a message below the expected number is handed on if and only if it is marked as a duplicate |
| Receives.GapFillMoves | zz_archive/pyfixmsg_plus/fixengine/engine.py:449-457 | a gap fill moves the expected number to exactly NewSeqNo if that is ahead, and changes nothing else |
| Receives.ResetLogonSets | zz_archive/pyfixmsg_plus/fixengine/engine.py:459-463 | after a reset Logon 1 is expected if the Logon is accepted, and else 2 |
| Receives.NumberlessIsDropped | zz_archive/pyfixmsg_plus/fixengine/engine.py:438-444 | nothing comes of a message without a number |
| Receives.AheadIsOutstanding | zz_archive/pyfixmsg_plus/fixengine/engine.py:474-488 | in every run, after a message ahead of the expected number a request for that number is outstanding |
| Receives.ExpectedMonotone | zz_archive/pyfixmsg_plus/fixengine/engine.py:435-502 | without a reset Logon the expected number never decreases |
| Receives.NothingAhead | zz_archive/pyfixmsg_plus/fixengine/engine.py:464-502 | no handler gets a message ahead of the expected number |
| Receives.StrictlyIncreasing | zz_archive/pyfixmsg_plus/fixengine/engine.py:464-502 | messages not marked as duplicates, other than Logon, Logout and SequenceReset, are delivered with strictly increasing numbers |
| Receives.RequestsAreLimited | zz_archive/pyfixmsg_plus/fixengine/engine.py:474-488 | between two ResendRequests with one BeginSeqNo a message with exactly that number arrives |
| Receives.DuplicateSkipsNumber | zz_archive/pyfixmsg_plus/fixengine/engine.py:464-500 | after a late duplicate other than a reset Logon the message that is really next is delivered if and only if the duplicate is of a type that does not advance the number, and no reset or gap fill to a number ahead |
| Receives.SkippedExample | zz_archive/pyfixmsg_plus/fixengine/engine.py:464-500 | with number 5 expected, a second copy of order 3 makes the engine drop order 5 |
| Heartbeats.NewConfig | gofixmsg/engine/heartbeat_monitor.go:26-34 | a positive time is kept, a missing interval is 30 seconds, and a missing timeout is the interval |
| Heartbeats.HeartbeatMonitor.SeenAt | gofixmsg/engine/heartbeat_monitor.go:36-41 | traffic sets lastSeen to now and ends the outstanding request, and leaves testSent |
| Heartbeats.HeartbeatMonitor.Tick | gofixmsg/engine/heartbeat_monitor.go:63-111 | up to Interval of silence one tick does nothing; beyond, it sends a TestRequest, or, if one is outstanding, stops the session after Timeout; also with traffic between its two locked sections |
| Heartbeats.RunKeepsInv | gofixmsg/engine/heartbeat_monitor.go:36-112 | in every run an outstanding request went out one to two intervals after the last traffic, or was sent by an interrupted tick, and has not timed out |
| Heartbeats.HeartbeatBound | gofixmsg/engine/heartbeat_monitor.go:36-112 | over all runs, interrupted ticks included, a stop comes after lastSeen + Interval + Timeout, by lastSeen + 3 Interval + Timeout, and after a TestRequest sent since, if and only if traffic came neither inside the tick that sent that request nor inside the tick that stops |
| Heartbeats.AtomicHeartbeatBound | gofixmsg/engine/heartbeat_monitor.go:36-112 | without traffic inside ticks the bound holds in every run |
| Heartbeats.BoundIsMet | gofixmsg/engine/heartbeat_monitor.go:43-112 | the upper bound is reached |
| Heartbeats.InterruptedRequestStopsEarly | gofixmsg/engine/heartbeat_monitor.go:63-106 | traffic inside the tick that sends the TestRequest breaks the lower bound |
| Heartbeats.InterruptedTimeoutStopsAtOnce | gofixmsg/engine/heartbeat_monitor.go:63-109 | traffic inside the tick that finds the request timed out does not keep it from stopping the session |
| BranchSequences.ReservedCodes | zz_archive/pyfixmsg_plus/idgen/id_generator.py:125-137 | the reserved branch numbers are those of the nine three-letter codes |
| BranchSequences.GetTotalNumOfAvailableIds | zz_archive/pyfixmsg_plus/idgen/id_generator.py:207-217 | the loop computes the count function |
| BranchSequences.TotalIs | zz_archive/pyfixmsg_plus/idgen/id_generator.py:207-217 | that count is 9999 for each usable branch before the id, plus its number |
| BranchSequences.NyseBranchSeqGenerator.GetNthId | zz_archive/pyfixmsg_plus/idgen/id_generator.py:242-261 | the loop computes the n-th id |
| BranchSequences.NthIdIs | zz_archive/pyfixmsg_plus/idgen/id_generator.py:242-261 | for every available n the id is not -1, lies in [min, max] on a usable branch with number 1..9999, and counts to n |
| BranchSequences.NthIdIncreases | zz_archive/pyfixmsg_plus/idgen/id_generator.py:242-261 | get_nth_id is strictly increasing |
| BranchSequences.EveryIdIsNth | zz_archive/pyfixmsg_plus/idgen/id_generator.py:207-261 | every usable id is the n-th for exactly the n that counting gives |
| BranchSequences.DecodeEncode | zz_archive/pyfixmsg_plus/idgen/id_generator.py:263-302 | decode(encode(n)) = n for every available n |
| BranchSequences.EncodeDecode | zz_archive/pyfixmsg_plus/idgen/id_generator.py:263-302 | encode(decode(id)) = id for every usable id |
| BranchSequences.DecodedReadsBackIff | zz_archive/pyfixmsg_plus/idgen/id_generator.py:263-302 | for any text that decode takes for an id, encode(decode(text)) = text if and only if the text is the template filled in, its number is not 0000, its branch is not above the last one, and its branch is not a reserved one from the first one on |
| BranchSequences.ReservedExample | zz_archive/pyfixmsg_plus/idgen/id_generator.py:263-280 | an id with a reserved branch decodes to the number of another id |
| BranchSequences.NumberZeroExample | zz_archive/pyfixmsg_plus/idgen/id_generator.py:263-280 | so does an id with number 0000 |
| BranchSequences.NyseBranchSeqGenerator.Decode | zz_archive/pyfixmsg_plus/idgen/id_generator.py:263-280 | returns -1 for malformed ids and n for encode(n) |
| BranchSequences.NyseBranchSeqGenerator.Encode | zz_archive/pyfixmsg_plus/idgen/id_generator.py:282-302 | returns the empty string past the last id and otherwise the id that decodes to n |
| Validator.ValidateMessage | gofixmsg/engine/validator.go:14-82 | returns nil if and only if the declarative predicate holds, in whatever order the maps are ranged over |
| Validator.NeedsTheHeader | gofixmsg/engine/validator.go:14-35 | a valid message has tags 8, 9, 35, 49, 56, 34, 52 and 10, and without a dictionary these are all it needs |
| Validator.FlatValidIff | gofixmsg/engine/validator.go:37-79 | with a dictionary, a message without groups and with those tags is valid if and only if its type is known, the required tags are there, and every defined field has the right type and one of the listed values, if any |
| Validator.WholeNumbers | gofixmsg/engine/validator.go:129-135 | INT, LENGTH, NUMINGROUP and SEQNUM take every 64-bit number, and neither the empty text nor one with other characters |
| Validator.OtherTypes | gofixmsg/engine/validator.go:136-170 | six types are floats, BOOLEAN is Y or N, and unknown types take any text |
| Validator.TimeTypes | gofixmsg/engine/validator.go:140-165 | dates and times are what the library parses under the layout that belongs to their length |
| Validator.ValidateRepeatingGroup | gofixmsg/engine/validator.go:84-127 | the same for the members of a group; a group without a specification passes |
| Validator.CheckLevel | gofixmsg/engine/validator.go:43-78 | the same for one level with its required tags and fields |
| Validator.CheckText | gofixmsg/engine/validator.go:60-76 | data type and enum check of one string field |
| Validator.ConformsIffEveryLevel | gofixmsg/engine/validator.go:14-127 | a message conforms if and only if every level reachable along groups the dictionary knows is in order |
| PathSearch.FindAll | gofixmsg/fixmsg/fragment.go:98-118 | returns every path to the tag exactly once, and only paths that lead to it |
| PathSearch.FindAllIn | gofixmsg/fixmsg/repeatinggroup.go:49-60 | the same for the members of a group |
| PathSearch.Anywhere | gofixmsg/fixmsg/fragment.go:121-135 | true if and only if some path leads to the tag |
| PathSearch.CollectTags | gofixmsg/fixmsg/fragment.go:84-93 | adds exactly the tags that occur at some depth |
| PathSearch.AllTagsDeep | gofixmsg/fixmsg/fragment.go:74-82 | lists exactly those tags, each once |
| PathSearch.SearchesAgree | gofixmsg/fixmsg/fragment.go:72-135 | Anywhere, a non-empty FindAll and membership in AllTagsDeep are equivalent |
| SpecBuilder.Destination.Collect | gofixmsg/fixmsg/spec/spec.go:194-217 | on acyclic references it ends, and tags, required tags and group tags gain exactly what is reachable through component references |
| SpecBuilder.BuildGroupSpec | gofixmsg/fixmsg/spec/spec.go:219-267 | a group specification lists exactly what is reachable inside the group, has the FirstTag of the group, and its nested groups describe nested groups in the same way |
| SpecBuilder.FirstTagIs | gofixmsg/fixmsg/spec/spec.go:233-267 | FirstTag is what the last component reference that supplies a tag makes it, and the first tag the group lists itself if none does |
| SpecBuilder.FirstTagIsOwnIff | gofixmsg/fixmsg/spec/spec.go:233-267 | where the group lists a tag itself, FirstTag is the first one if and only if no component reference supplies a tag, or the last one that does supplies the same |
| SpecBuilder.EndsIff | gofixmsg/fixmsg/spec/spec.go:194-267 | the depth to which the calls follow references is bounded if and only if the references can be ranked, that is, are acyclic |
| SpecBuilder.CycleExample | gofixmsg/fixmsg/spec/spec.go:194-217 | a component that refers to itself: no depth will do |
| SpecBuilder.FirstTagIsReachable | gofixmsg/fixmsg/spec/spec.go:233-267 | it is a tag of the group as soon as the group has one |
| SpecBuilder.OverwrittenExample | gofixmsg/fixmsg/spec/spec.go:233-267 | a group that lists field 1 and refers to a component with field 2 has FirstTag 2 |
| SpecBuilder.ReachesIff | gofixmsg/fixmsg/spec/spec.go:194-217 | a tag is reachable if the body lists it or a referenced component reaches it, and not otherwise |
| SimpleCrypt.RunStreamCipher | zz_archive/pyfixmsg_plus/fixengine/simple_crypt.py:64-73 | the loop computes the block function, and raises where the counter outgrows four bytes |
| SimpleCrypt.StreamByte | zz_archive/pyfixmsg_plus/fixengine/simple_crypt.py:64-73 | byte i is combined by exclusive or with byte i mod 32 of the hash of the key and the four bytes of i / 32, the highest first |
| SimpleCrypt.XorBit | zz_archive/pyfixmsg_plus/fixengine/simple_crypt.py:64-73 | a bit of the output is set if and only if it is set in exactly one of data and hash |
| SimpleCrypt.StreamCipherTwice | zz_archive/pyfixmsg_plus/fixengine/simple_crypt.py:64-73 | the cipher works if and only if there are at most 2^32 blocks, and is then its own inverse, short last block included |
| SimpleCrypt.DecryptEncrypt | zz_archive/pyfixmsg_plus/fixengine/simple_crypt.py:75-94 | decrypt(p, encrypt(p, text)) = text whenever encrypt succeeds, that is up to 2^32 blocks |
| SimpleCrypt.EncryptedLayout | zz_archive/pyfixmsg_plus/fixengine/simple_crypt.py:75-81 | what encrypt encodes is 16 bytes of salt, 32 bytes of MAC over the ciphertext, and the ciphertext, both under the derived key |
| SimpleCrypt.EncryptDecrypt | zz_archive/pyfixmsg_plus/fixengine/simple_crypt.py:75-94 | an accepted text is the encryption of what it decrypts to under the salt it carries |
| SimpleCrypt.CheckTwice | zz_archive/pyfixmsg_plus/fixengine/simple_crypt.py:50-59 | checking a clear parameter and then its result gives the text without the mark |
| EnumCaches.FixTag.EnumByName | zz_archive/pyfixmsg/reference.py:92-96 | answers as a last-match scan of the values, cached or not |
| EnumCaches.FixTag.EnumByValue | zz_archive/pyfixmsg/reference.py:98-102 | the same by value |
| EnumCaches.LastOccurrence | zz_archive/pyfixmsg/reference.py:92-102 | a name stands for the value of its last pair, and a value for the name of its last pair |
| EnumCaches.FixTag.AddEnumValue | zz_archive/pyfixmsg/reference.py:56-64 | refuses a known name, otherwise appends, and keeps both caches right |
| EnumCaches.FixTag.DelEnumValue | zz_archive/pyfixmsg/reference.py:66-90 | the outcome and the remaining values in every case, failing ones included; both caches stay right |
| EnumCaches.WithoutName | zz_archive/pyfixmsg/reference.py:79-83 | deleting a name makes it unknown and leaves the others |
| EnumCaches.WithoutValue | zz_archive/pyfixmsg/reference.py:84-87 | deleting a value makes it unknown and leaves the others |
| EnumCaches.WithoutKeeps | zz_archive/pyfixmsg/reference.py:79-87 | what stays after a deletion is every pair with another name, or another value |
| EnumCaches.DeletionExample | zz_archive/pyfixmsg/reference.py:73-78 | a definition that was never looked up refuses to delete the pair it holds |
| EnumCaches.DeletionIff | zz_archive/pyfixmsg/reference.py:73-78 | deletion by name and value answers from the values if and only if the name cache is filled or the name is unknown |

## Left out

- Sockets, TLS, SQLite, INI and XML decoding, logging, the scheduler, command line tools and examples.
- The Go AES codec, the regular-expression codec and the buffering of network data in the Python engine.
- The Go handlers of SequenceReset, Logon, Logout, TestRequest and Heartbeat; attaching and reconnecting sessions.
- Resends.HandleResendRequest: says what is sent in a given number of turns of its loop, because the loop need not end; LoopEndsIff says when it does.
- Resends.SkipNumber: the ToAdmin callback accepts or refuses a gap fill but does not change it; the engine, its store and its session are taken to be present.
- Sessions.RunKeepsInv: does not model the crash of the process that a panicking frame finder causes, nor callbacks that call Stop from inside the read loop.
- Readers.Reader.ReadLoop: messages count as handed on even if neither OnMessage nor a processor is set; processor errors are only logged in the source.
- Engines.FixEngine.SendMessage: models an engine with a session and a sequence manager, and a ToApp callback that does not change the message; the direct write to a connection is left out.
- EndToEnd.DeliveredIsPrefix: the runs are of messages without a MsgSeqNum of their own, separated by SOH; a message that brings its number consumes none.
- Threads.IncreasingIff: follows the numbers that calls take and stamp, with working saves; the bytes of the frames are left open.
- Wire.SetLenAndChecksum: the method returns an updated message value; the class method of the same name updates the message object.
- Groups are values: aliasing of group pointers, nil groups and values that are neither strings nor groups are not modelled, so the serialisers have no error case.
- Wire.SortTags: the model breaks ties between clashing keys by tag number; OrderDeterminedIff says when a tie can occur.
- Separators of 128 and more, which Go turns into two bytes, and blanks beyond ASCII in front of a BodyLength number.
- SpecBuilder.BuildGroupSpec: requires component references without a cycle; EndsIff says that these are the ones on which the calls end.
- The parts of the Logon handler in the Python engine that do not touch the counters, and the outgoing number that each message sent by a handler takes.
- The constructor of NyseBranchSeqGenerator, which rejects every input; the model starts from the state it is meant to reach. Letters and digits beyond ASCII in ids are not modelled.
- Validator.ValidateMessage: returns whether the message is valid, not the text of the first error, which depends on the map order.
- Sessions.NeverStuck: the read loop is taken to be able to end at any time, because read errors come from outside; liveness beyond the absence of deadlock is not stated.
