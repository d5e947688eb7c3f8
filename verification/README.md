# Cubicle, a model of its hard parts

Cubicle keeps long-running processes behind controllers: a controller retains a
process's output in log files and serves it to clients over a Unix socket, a
client library attaches, reads and reconnects, and a terminal front end sits on
top. This project models the parts in which bytes, offsets and configuration can
go wrong quietly, and proves what they keep.

| file | models |
|---|---|
| `Wrappers`, `Bytes`, `Text` | options, byte strings, decimal numbers and sscanf |
| `Utf8`, `JsonString`, `JsonBuilder` | cutting raw output into UTF-8 and encoding it as JSON strings |
| `StreamRead` | bounded reads of a retained log, and the client's side of them |
| `Framing` | cutting a controller connection into requests |
| `ControlClient`, `Controller` | one connection and the 32-slot controller, as a state machine |
| `ControlSlot` | the same connection as the program keeps it, a slot updated in place |
| `ApiSession` | calls and replies over one framed connection |
| `Handshake` | opening a stream, from the client's command to the bytes it reads |
| `Attachment`, `ClientRuns` | the client library's retries and offsets, and whole runs of it |
| `WholeSystem` | a controller and a client together |
| `EventLog` | appending events and paging through them |
| `TerminalScan`, `TerminalStream`, `Scrollback` | cursor mode in terminal output, and the lines that scroll off |
| `DetachFilter` | the detach key of an attached terminal |
| `AuthTranscript` | the byte strings that authentication signs |
| `ConfigText`, `ConfigFile`, `ConfigRewrite` | reading and rewriting configuration files |
| `KeyName`, `KeyInput` | key names, and a reader of terminal input to say what they mean |
| `KeyTable`, `ManagedKeys` | key tables, and saving them in a managed block |
| `SavedKeys`, `ManagedText` | what a saved file loads to, and what a save keeps of the rest |

State that the program updates in place is a class whose methods are proved
against functions on values; the laws are lemmas about those functions. Outcomes
the program does not control, such as partial reads and writes, refused memory,
failed connections and hang-ups, are arguments or free choices, so every result
holds for all of them.

Some promises turn out to hold only under a condition, and then both sides are
proved:

- Output sent in chunks keeps its meaning unless a chunk ends in the lone first
  byte of a three- or four-byte sequence (`Utf8.ChunkTransparency`,
  `StreamRead.ReadsText`).
- A read into a one-byte buffer that meets a byte above 0x7F never succeeds
  (`StreamRead.ReplyFits`).
- Replaying while a stream is open moves the recorded offset but not the stream
  (`ClientRuns.InStepKept`, `ClientRuns.ReplayIgnored`).
- Cursor mode is followed under every cutting of the output if and only if the
  setting takes at most 17 bytes (`TerminalScan.NoticedIffShort`), and in a whole
  stream if and only if longer settings say nothing new
  (`TerminalStream.NoticedIffFollowed`).
- Changing the defaults changes exactly what it should in exactly the legible
  files (`ConfigRewrite.LegibleIff`). In others a reset is lost, where a section
  line has blanks inside the brackets (`ConfigRewrite.PaddedSectionExample`,
  `ConfigRewrite.ShadowedExample`), or takes another section's setting with it,
  where that section's name is long (`ConfigRewrite.StrayResetExample`).
- Saving keys keeps the meaning of the rest of the file unless a line was added
  behind the block (`ManagedText.KeptMeansSame`, `ManagedText.StrayLineExample`).
- Saving a key bound with control and alt on one character, or a key whose name
  ends in a blank, leaves a file that does not load
  (`KeyName.NormalisationStable`, `SavedKeys.SavedLoadsIff`,
  `SavedKeys.ControlMetaExample`, `SavedKeys.BlankExample`).

## Model

| member | source | states |
|---|---|---|
| Utf8.SequenceIsCodePoint | src/common/rpc.c:217-330 | The byte ranges the program tests for are the arithmetic of RFC 3629: a byte string is taken for one sequence if and only if it is the encoding of a code point up to U+10FFFF that is no surrogate, and of only one |
| Utf8.WellFormedIsText | src/common/rpc.c:217-330 | Bytes are well formed if and only if they are the encoding of some text of code points |
| Utf8.TruncatedIsProperPrefix | src/common/rpc.c:383-470 | The byte patterns taken for a cut-off tail are exactly the non-empty proper prefixes of well-formed UTF-8 sequences (RFC 3629, section 4) |
| Utf8.UnitsPartition | src/common/rpc.c:217-330 | Cutting bytes into units, one sequence or one stray byte each, loses and reorders nothing |
| Utf8.UnitsSplit | src/common/rpc.c:217-330 | Two pieces are cut into the units of the whole if and only if the cut is at a unit boundary |
| Utf8.SafePrefixLength | src/common/rpc.c:342-472 | The scan passes whole units and ends before the first tail that is to be held back, for every input |
| Utf8.HeldBackTail | src/common/rpc.c:342-472 | At most three bytes are held back, and what is held back is an incomplete sequence |
| Utf8.ChunkTransparency | src/common/rpc.c:342-472 | The cut is at a unit boundary of the whole stream if and only if the chunk does not end in a lone three- or four-byte lead that the next bytes complete |
| Utf8.TransparentEncoding | src/common/rpc.c:342-472 | Outside that one case, sending the safe prefix and then the rest is cut into the same units as the whole |
| Utf8.LoneLeadExample | src/common/rpc.c:342-472 | The euro sign cut after its first byte is such a case: 0xE2 alone is not held back, 0xC3 alone is |
| JsonBuilder.NextChunk | src/common/rpc.c:217-330 | The if-chain that classifies the next bytes finds exactly the next unit and the escape for it |
| JsonBuilder.Builder.Reserve | src/common/rpc.c:46-81 | A successful reserve leaves room for the bytes and the terminator and keeps the contents; a failed one changes nothing; it fails only when memory is refused or doubling would overflow, and never when there is room already |
| JsonBuilder.Builder.Append | src/common/rpc.c:83-97 | All of the text or none of it is appended, and none only when memory was refused |
| JsonBuilder.Builder.AppendStringN | src/common/rpc.c:197-340 | A successful append has added the quoted encoding of the whole value; a failed one has kept everything before it, and fails only when memory was refused |
| JsonString.RoundTrip | src/common/rpc.c:197-340 | A JSON reader (RFC 8259, section 7) reads every encoded byte string back, as its text: sequences as they are, stray bytes as U+0080 to U+00FF |
| JsonString.ShortestWritten | src/common/rpc.c:204-235 | For an ASCII character no text that reads as it is shorter than the one written |
| JsonString.IdentityOnUtf8 | src/common/rpc.c:197-340 | The text read back is the value if and only if the value is well-formed UTF-8; otherwise it is longer, by at most a factor of two |
| JsonString.OutputIsUtf8 | src/common/rpc.c:197-340 | The encoded string and the text it stands for are well-formed UTF-8 whatever the bytes |
| JsonString.SplitAtBoundary | src/common/rpc.c:197-340 | Encoding the two sides of a unit boundary separately gives the encoding of the whole |
| StreamRead.ReadStreamJson | src/controller/control.c:622-693 | Whatever the reads return, the reply is that of the window on disk, cut at the safe prefix unless that is empty; each refusal if and only if its cause, and an error if and only if a read failed |
| StreamRead.ReadsTile | src/controller/control.c:622-693 | Reading on from every next offset visits adjacent, non-empty ranges that join to the rest of the log; the last reply alone says end of stream |
| StreamRead.CutStrays | src/controller/control.c:677-680 | Cutting a log never shortens its text, and leaves its length alone exactly at a unit boundary |
| StreamRead.CutIsBoundary | src/controller/control.c:677-680 | The cut of a window is a unit boundary of the log if and only if it does not fall into a sequence it was too short, or too forward, to hold back |
| StreamRead.ReadsText | src/controller/control.c:622-693 | The texts of all replies join to the text of the log if and only if no cut splits a sequence; otherwise they are longer |
| StreamRead.OnlyLoneLeadsSplit | src/controller/control.c:677-680 | With windows of at least four bytes a cut splits a sequence only after a lone lead |
| StreamRead.ReplyFits | src/client/attachment.c:904-960 | The half-length request makes every reply fit the caller's buffer, except a one-byte buffer meeting a byte above 0x7F, which never does |
| Framing.FeedChunk | src/controller/control.c:1678-1752 | The loop over one read decides what the byte-by-byte specification decides |
| Framing.FeedKeepsWaiting | src/controller/control.c:1678-1752 | A connection between requests keeps its parser in bounds, and the request_too_large branch is never taken |
| Framing.FeedAllIsFeed | src/controller/control.c:1630-1754 | However a stream is cut into reads, the same first request is found |
| Framing.FramedRequest | src/controller/control.c:1678-1725 | A frame of any admitted payload is dispatched as that payload, and not before its last byte |
| Framing.FrameLengths | src/controller/control.c:1690-1711 | A frame length is refused if and only if it is zero or does not fit; a first byte other than zero starts a line unless the connection is framed already |
| Framing.NoSecondRefusal | src/controller/control.c:1678-1725 | Once its length is accepted a frame is never refused |
| Framing.SharedReadDropped | src/controller/control.c:1678-1725 | Whatever shares the read that completes a frame, a second frame or the front of one, is dropped as if it had never been sent |
| Framing.LineRequest | src/controller/control.c:1728-1751 | A line of up to 255 bytes is dispatched without its line ending, however it arrives |
| Framing.LineEndings | src/controller/control.c:1728-1751 | A newline and a carriage return with a newline end a line alike, and are no part of it |
| Framing.LineRefusals | src/controller/control.c:1738-1750 | A zero byte behind the first refuses a line, and so does its 256th byte |
| ControlClient.WrittenConserves | src/controller/control.c:1508-1530 | A partial write moves bytes from the queue to the wire in order: both together stay the same |
| ControlClient.FlushKeepsGood | src/controller/control.c:1508-1553 | A flush keeps the slot invariant, and either closes the connection or continues its stream |
| ControlClient.FlushDelivers | src/controller/control.c:1508-1553 | A socket that takes what is pending leaves exactly the header and the log on the wire |
| ControlClient.StdinAttaching | src/controller/control.c:1328-1337 | Of all line requests just the two for standard input make a connection the child's input, and just while the process runs, its input is open and the answer can be queued |
| ControlClient.StdinRefused | src/controller/control.c:1328-1337 | Otherwise the asker is told which of the two it was, and the connection is closed behind that |
| ControlClient.StdinAttached | src/controller/control.c:1508-1553 | The connection becomes the child's input once its whole answer is written, and not before |
| ControlClient.StdinServed | src/controller/control.c:1328-1337 | From the first byte of the request, however cut up, to the last of the answer: the connection ends as the child's input if and only if that could be had |
| ControlClient.BroadcastExtends | src/controller/control.c:1756-1775 | A chunk that is queued extends the client's stream as it extends the log |
| ControlClient.AttachStreams | src/controller/control.c:1237-1271 | A granted attach starts a stream with the header and the log from the asked offset |
| ControlClient.CommandKeepsGood | src/controller/control.c:1273-1459 | Whatever a line request says, the slot it leaves is in order |
| ControlClient.ReceiveKeepsGood | src/controller/control.c:1630-1754 | Whatever arrives on a connection, and however it is answered, the slot stays in order |
| Controller.StepKeepsInv | src/controller/stream.c:440-775 | Every step of the loop keeps all 32 slots in order and only extends the logs; a slot is closed, reused or continued |
| Controller.AttachedClientsStream | src/controller/control.c:1756-1775 | After any run every attached client has been sent, or has queued, its header and the log from its attach point to now: no gap, no repeat, no reordering |
| Controller.StreamContinues | src/controller/control.c:1756-1775 | A client that is not closed keeps its stream, and what it was sent is never taken back, whatever happens to the other slots |
| Controller.DroppedOnlyForCause | src/controller/control.c:1756-1775 | An attached client is dropped only by a refused allocation, by owing more than four megabytes, by a failed write or by a hang-up |
| Controller.FirstEmpty | src/controller/control.c:1576-1582 | The slot a new connection gets is the first empty one, or none if all are in use |
| Controller.StopsIff | src/controller/control.c:1630-1754 | A controller stops for an API call whose reply cannot be made or queued, for nothing else, and then for good |
| ControlSlot.Slot.Close | src/controller/control.c:293-318 | A closed slot is an empty slot |
| ControlSlot.Slot.Accept | src/controller/control.c:1597-1607 | An accepted connection starts reading with nothing queued |
| ControlSlot.Slot.Enqueue | src/controller/control.c:168-198 | The growing buffer queues all of the bytes or none, and needs no memory if they fit its capacity |
| ControlSlot.Slot.EnqueueStreamBytes | src/controller/control.c:450-505 | A range of the log is queued in pieces: on success all of it that the file holds, on failure the pieces before the one that failed |
| ControlSlot.Slot.Error | src/controller/control.c:209-221 | An error line is queued and the connection marked to close |
| ControlSlot.Slot.ApiFrame | src/controller/control.c:223-240 | A reply is queued behind its four-byte length and the connection kept |
| ControlSlot.Slot.Attach | src/controller/control.c:1237-1271 | The header and the catch-up are queued as one, or the slot fails |
| ControlSlot.Slot.Dispatch | src/controller/control.c:1273-1459 | A line request is answered as the value model says; a failure closes the slot |
| ControlSlot.Slot.Flush | src/controller/control.c:1508-1553 | The write loop leaves what the value model says, for every sequence of socket answers |
| ControlSlot.Slot.Receive | src/controller/control.c:1630-1754 | One turn of the read loop leaves what the value model says |
| ControlSlot.Slot.ReadRequest | src/controller/control.c:1630-1754 | The whole read loop, up to the read that ends it |
| ControlSlot.Broadcast | src/controller/control.c:1756-1775 | The loop over the slots gives a chunk to exactly the clients of that stream, and closes those that cannot take it |
| ControlSlot.AcceptOne | src/controller/control.c:1555-1609 | The first empty slot is taken, and no other slot changes |
| ApiSession.CallReceived | src/controller/control.c:1630-1754 | However a framed call is cut into reads, the read that completes it leaves exactly its reply queued |
| ApiSession.CallServed | src/controller/control.c:1508-1553 | Once its reply is written, in whatever pieces, a framed connection has the reply on the wire and is ready for the next call |
| ApiSession.CallsServed | src/controller/control.c:1508-1553 | Any number of calls on one connection are answered by their replies, one each and in order, as a client that unframes the wire reads them |
| ApiSession.SecondCallLost | src/controller/control.c:1508-1725 | A client that does not wait for its reply loses the call it sends in the same read: one reply, and the connection as if the second call had not been sent |
| Handshake.CommandUnderstood | src/client/attachment.c:133-147 | For every offset the dispatcher does what the client's command asks: attach that stream there, or say that the process has completed |
| Handshake.NameUnderstood | src/controller/control.c:1385-1404 | For any stream name and offset the dispatcher attaches to the stream of that name, under each of its names, or says that there is none |
| Handshake.AttachRefused | src/controller/control.c:1385-1404 | An attach command without a name and a number is refused as such |
| Handshake.CommandFits | src/client/attachment.c:133-147 | The command is one plain line that fits the client's buffer and the controller's |
| Handshake.ReadHeader | src/client/attachment.c:148-187 | The byte-wise header loop opens, refuses or gives up as the first newline says, and leaves the bytes behind it alone |
| Handshake.HeaderIsLine | src/controller/control.c:1261-1268 | The header the controller writes is one line, below its 96-byte limit for every 64-bit number, and begins as the client expects |
| Handshake.HeaderNumbers | src/controller/control.c:1261-1268 | The numbers in the header read back as where the stream starts and how much of the log comes with it |
| Handshake.HeaderStripped | src/client/attachment.c:148-187 | However much has arrived, the client strips exactly the header or still waits for it |
| Handshake.ErrorRefused | src/client/attachment.c:175-187 | No part of an error reply is taken for a header |
| Handshake.RequestAttaches | src/controller/control.c:1385-1404 | A client is attached if and only if the process runs, the offset is in the log and at most 65536 bytes behind, the file can be read and memory is granted; it is then attached at that offset |
| Handshake.StreamDelivered | src/client/attachment.c:100-197 | End to end: after any further run, what the client finds behind the header is a prefix of the log from the offset it asked for, and all of it once the queue is empty |
| Attachment.Attachment.ParseAttachResponse | src/client/attachment.c:287-310 | Nothing is taken from a reply without channels; missing offsets are zero |
| Attachment.Attachment.AttachController | src/client/attachment.c:312-356 | Only the first successful attach sets the offsets, to those of its reply; every later one, and every failed one, leaves them alone. The channels are those of the last reply |
| Attachment.Attachment.EnsureController | src/client/attachment.c:358-391 | A new connection is made and attached, or the code of what failed comes back; the offsets stay once attached |
| Attachment.Attachment.RefreshGrant | src/client/attachment.c:411-470 | Refreshing a relay grant asks for one, once more over a new connection after a transport error, and attaches with it; the offsets stay whatever fails, and a grant without an attach leaves no channels |
| Attachment.Attachment.Rpc | src/client/attachment.c:557-668 | Every call ends and keeps the offsets and the stream whatever fails on the way. What is done for it is its tries and nothing else: retried for the same methods, after the same failures and over the same connections as the program does, and the answer is that of the tries |
| Attachment.FirstSettled | src/client/attachment.c:557-668 | The answer is the first that is no transport error: every try before the last failed that way, and a try that did not is the last one and the result |
| Attachment.GivesUpOnlyWhenSpent | src/client/attachment.c:581-668 | For a method that may be retried, failure comes back only when the tries are spent: over a relay after a second send or a grant or attach that failed, directly after a connection of its own was tried or when no connection could be made at all |
| Attachment.SentAtMost | src/client/attachment.c:557-668 | A method is sent at most three times directly, twice over a relay, once if it may not be retried |
| Attachment.Attachment.Connect | src/client/attachment.c:701-762 | A connect succeeds if and only if the attach does, and starts at the offsets of its reply |
| Attachment.Attachment.ReadStream | src/client/attachment.c:850-976 | The caller is given what came back: the bytes the open socket handed over, or the data of the last answer to a read of this stream from its offset, whenever that is complete, not behind the offset and fits; nothing otherwise. The offset of the stream moves by those bytes, or to the offset in the answer, and nothing else moves |
| Attachment.Attachment.StreamStart | src/client/attachment.c:797-828 | A stream is opened at its offset, and is the open one if and only if that worked; no offset changes |
| Attachment.Attachment.Replay | src/client/attachment.c:770-788 | All three offsets go back by the count, not below zero |
| Attachment.Attachment.TakeSnapshot | src/client/attachment.c:1139-1241 | A snapshot is taken if and only if the last answer is complete, and moves the terminal's offset to the one in it |
| Attachment.Attachment.Perform | src/client/attachment.c:770-1254 | Any calls one after the other: each does something unless the library refuses or answers it itself, comes to what last came back for it, and leaves the caller and its buffer as that says |
| ClientRuns.InStepKept | src/client/attachment.c:770-788 | The open stream's offset says where its socket stands; a replay or a snapshot under an open stream is exactly what breaks that |
| ClientRuns.ServedText | src/client/attachment.c:916-965 | What a read by call puts into the buffer is the text of the range its offset moves over |
| ClientRuns.RunConforms | src/client/attachment.c:770-976 | A run of the library is a conforming run if and only if its events are truthful, and so if what came back in each call was; it ends at the library's own offsets |
| ClientRuns.HonestTruthful | src/client/attachment.c:850-976 | What a call comes to is lawful whatever came back, and about the log if what last came back was: a read answer for the stream, offset and length asked for, or the socket's next bytes |
| ClientRuns.ReadDelivers | src/client/attachment.c:916-969 | The reply the controller makes for a read is given to the caller whole, except a byte above 0x7F to a one-byte buffer, which is refused |
| ClientRuns.FetchedIsDelivered | src/client/attachment.c:850-976 | What a run gives of a stream is what its reads of that stream put into their buffers |
| ClientRuns.ReadsCover | src/client/attachment.c:850-976 | In any run in which only reading moves offsets, through the socket, by calls, or both, the reads of a stream cover the log from its first to its last offset, each beginning where the one before it ended, and give those pieces in that order, raw by socket and as text by call; the range itself if and only if no read by call covered anything but UTF-8 |
| ClientRuns.ReadsGiven | src/client/attachment.c:770-976 | In every run, with replays and snapshots anywhere, a reader is given whole pieces of the log in the order of its calls, a socket's from where it stands and a call's from the recorded offset |
| ClientRuns.PartCovers | src/client/attachment.c:770-976 | Any undisturbed part of such a run, from a point where the open stream is in step, covers its range without gap or repeat |
| ClientRuns.ReplayDelivers | src/client/attachment.c:770-788 | With no stream open a replay gives the last bytes again, piece after piece, and then goes on without a gap |
| ClientRuns.ReplayIgnored | src/client/attachment.c:770-788 | With the stream open the socket goes on from where it was, and the recorded offset is behind it from then on |
| WholeSystem.GrantAttaches | src/controller/control.c:1385-1404 | The step that completes a client's command and attaches it attaches it at the offset of the command |
| WholeSystem.ArrivedIsLog | src/client/attachment.c:873-905 | What has arrived of a connection that lasts is, any part of it, the log from where it was attached |
| WholeSystem.ClientSeesLog | src/client/attachment.c:850-976 | Any controller run and any client calls beside it, with the answers the controller then gives: what the calls put into the buffers for a stream is the retained log, piece after piece from where it began to the library's final offset |
| TerminalScan.SettingSaid | src/common/terminal_model.c:317-357 | ESC [ ?, any parameters and a final byte are a setting if and only if the final byte is h or l and a parameter is 1, as 32 bits; h sets, l resets, and the setting is as long as what was written |
| TerminalScan.EveryTextIsFields | src/common/terminal_model.c:317-357 | Every text without a final byte is such a list of parameters |
| TerminalScan.NoFinalNoSetting | src/common/terminal_model.c:317-357 | Without a final byte there is no setting yet |
| TerminalScan.ModesSet | src/common/terminal_model.c:317-357 | A list of decimal mode numbers switches the cursor keys if and only if 1 is among them |
| TerminalScan.ReadParameters | src/common/terminal_model.c:321-355 | The inner loop finds whether the sequence sets cursor mode, and to what, with its 32-bit parameter values |
| TerminalScan.TerminalModel.Track | src/common/terminal_model.c:299-365 | One feed scans the kept tail and the new bytes and keeps the last 16 |
| TerminalScan.ScanIsLast | src/common/terminal_model.c:317-357 | Scanning every position leaves the last setting in the stream, or the old mode |
| TerminalScan.FeedStep | src/common/terminal_model.c:299-365 | If no setting is longer than 17 bytes, a feed after any output leaves the mode and tail of scanning all of it |
| TerminalScan.SplitIndependent | src/common/terminal_model.c:299-365 | For output whose settings take at most 17 bytes, any cutting into feeds of up to 4096 bytes gives the mode of the whole |
| TerminalScan.LongSettingMissed | src/common/terminal_model.c:299-365 | A longer setting fed byte by byte is not noticed at all |
| TerminalScan.NoticedIffShort | src/common/terminal_model.c:299-365 | A setting is noticed under every cutting if and only if it is at most 17 bytes long |
| TerminalScan.LongSettingExists | src/common/terminal_model.c:299-365 | Settings of 18 bytes exist |
| TerminalStream.NoticedIffFollowed | src/common/terminal_model.c:299-365 | For any stream: every cutting leaves the mode the whole stream says if and only if the last setting agrees with the last short one, and so does every longer one behind it that fits the tail and a feed |
| AuthTranscript.AppendFields | src/common/auth_protocol.c:10-55 | Appending fields with a bound check each succeeds if and only if the whole fits, and then has written the whole |
| AuthTranscript.WriteTranscript | src/common/auth_protocol.c:57-97 | The transcript is written if and only if it fits the buffer, and is its encoding |
| AuthTranscript.WriteResume | src/common/auth_protocol.c:99-128 | The resume message is written if and only if it fits the buffer, and is its encoding |
| AuthTranscript.TranscriptSize | src/common/auth_protocol.c:57-97 | Its length, at most 459 bytes for every valid transcript |
| AuthTranscript.ResumeSize | src/common/auth_protocol.c:99-128 | Its length, at most 194 bytes for every valid message |
| AuthTranscript.TranscriptLayout | src/common/auth_protocol.c:57-97 | Every field of the transcript stands at its own offset, numbers most significant byte first |
| AuthTranscript.ResumeLayout | src/common/auth_protocol.c:99-128 | Every field of the resume message stands where the lengths in front of it say |
| AuthTranscript.TranscriptInjective | src/common/auth_protocol.c:57-97 | Different transcripts have different encodings, so a signature covers every field |
| AuthTranscript.ResumeInjective | src/common/auth_protocol.c:99-128 | Different resume messages have different encodings |
| AuthTranscript.DomainsDisjoint | src/common/auth_protocol.c:57-128 | No transcript is encoded as a resume message |
| ConfigText.ClassifyAssign | src/common/config_parser.c:177-260 | A plain key, an equals sign and a trimmed value are read as that entry |
| ConfigText.ClassifyHeader | src/common/config_parser.c:177-260 | A bracketed name is read as that section |
| ConfigText.HeaderRead | src/common/config_parser.c:200-236 | A name in brackets, with blanks in or around them or not, is a section of that name if and only if it has one to 255 characters |
| ConfigFile.AddUpdates | src/common/config_parser.c:136-175 | Adding an entry sets that key of that group and no other |
| ConfigFile.ParseDistinct | src/common/config_parser.c:136-260 | No group and key is ever listed twice |
| ConfigFile.ParseConcat | src/common/config_parser.c:177-260 | Whole lines are read one after the other: a file is read as its parts in turn |
| ConfigFile.File.AddEntry | src/common/config_parser.c:136-175 | The stored entry is replaced in place or added at the end |
| ConfigFile.File.Read | src/common/config_parser.c:177-260 | The line loop stores what the text means, or fails exactly on the texts that mean nothing |
| ConfigFile.File.GetString | src/common/config_parser.c:276-293 | A value is found if and only if the file gave one, and is the last one given |
| ConfigFile.File.GetKeys | src/common/config_parser.c:295-331 | The keys of a group in the order they first appeared |
| ConfigRewrite.SectionRead | src/cli/main.c:896-914 | The rewriter sees a section if and only if the name has one to 63 characters right in the brackets and the line at most 255 |
| ConfigRewrite.KeyRead | src/cli/main.c:916-935 | The rewriter sees a key if and only if it is the whole key and the line has at most 255 characters |
| ConfigRewrite.RenderUpdatedConfig | src/cli/main.c:982-1085 | The line loop renders what the specification renders |
| ConfigRewrite.RenderMeans | src/cli/main.c:982-1085 | The rewritten file always parses, and says what one walk over the old file's lines says |
| ConfigRewrite.LegibleIff | src/cli/main.c:982-1085 | Every update gives the old values with exactly the assigned keys set, the reset keys gone and everything else kept, if and only if the file is legible: leaving out the lines the rewriter takes for a key leaves out that default and nothing else, and where it takes [defaults] to end the parser is in [defaults] |
| ConfigRewrite.CommutesLegible | src/cli/main.c:982-1085 | Four updates tell: a reset of each key, and one assignment of a value the file is too short to hold |
| ConfigRewrite.AgreeLegible | src/cli/main.c:896-935 | Files whose lines the rewriter and the parser read alike are legible |
| ConfigRewrite.RewriteCommutes | src/cli/main.c:982-1085 | So on those files every update does exactly what it says |
| ConfigRewrite.ShadowedExample | src/cli/main.c:896-914 | A second section, written with blanks in its brackets, keeps a default that was reset |
| ConfigRewrite.StrayResetExample | src/cli/main.c:896-914 | Behind [defaults], a section whose name has 64 or more characters loses its own mode to a reset of the default |
| ConfigRewrite.SimpleTextAgrees | src/cli/main.c:896-935 | They do on files whose section lines are unpadded and whose keys hold no unusual blanks |
| ConfigRewrite.UnseenUntouched | src/cli/main.c:982-1085 | A file in which the rewriter sees no defaults section is copied as it is |
| ConfigRewrite.ResetLost | src/cli/main.c:982-1085 | Of such a file, update by update: the assigned keys are set in a new section, and the update does what it should if and only if the parser finds none of the keys that are only reset |
| ConfigRewrite.PaddedSectionExample | src/cli/main.c:896-914 | A section written with blanks inside its brackets keeps a setting that was reset |
| KeyName.StripModifiers | src/common/config.c:396-408 | The prefix loop takes off the modifiers that the specification takes off |
| KeyName.ReadNormal | src/common/config.c:362-630 | Every normal form reads back as itself, except control with meta on one character, which is refused |
| KeyName.MetaFormIff | src/common/config.c:362-630 | A name reads as that form if and only if it is control and alt, without shift, on one character |
| KeyName.NormalisationStable | src/common/config.c:362-630 | The stored name of a key reads back as the same key and bytes if and only if the key is not of that form |
| KeyInput.KeyMeansItsName | src/common/config.c:362-630 | For every accepted name, in whatever order, case and number its words are, a reader of terminal input reads the stored bytes as the key and modifiers the words say, and as nothing else |
| KeyInput.AcceptedIff | src/common/config.c:362-630 | Of the names made of modifier words and a key's word, those are accepted that are below 64 characters and whose combination can be bound |
| KeyInput.CaretAccepted | src/common/config.c:410-416 | A caret and a character is accepted if and only if the character has a control key |
| KeyInput.PrefixRead | src/common/config.c:376-382 | Prefix- in front of a name, in either spelling, gives the same bytes behind the prefix, and the normal name with it |
| KeyInput.FormRead | src/common/config.c:473-600 | The bytes written for a key are read back as that key with those modifiers |
| KeyInput.SpecialNamed | src/common/config.c:296-360 | Every special key has the number or letter a terminal sends for the key of that name |
| KeyInput.StripIsWords | src/common/config.c:396-408 | What the prefix loop takes off is modifier words, and the modifiers are those they name |
| KeyInput.SaysOne | src/common/config.c:362-630 | No name says two different keys |
| KeyTable.Bindings.Add | src/common/config.c:668-733 | Binding by name changes the table as specified, or refuses and changes nothing |
| KeyTable.Bindings.Store | src/common/config.c:702-733 | The search loop replaces, appends, removes or refuses as specified |
| KeyTable.Bindings.Validate | src/common/config.c:777-807 | The pairwise check accepts exactly the tables without two bindings of one key |
| KeyTable.PutRefines | src/common/config.c:702-733 | On such tables storing is an update of a finite map from keys to bindings; a user binding is refused if and only if a user binding has the key |
| KeyTable.BindRefines | src/common/config.c:668-733 | Binding by name succeeds if and only if there is room, the name and command are known and no user binding has the key, and is then that update |
| KeyTable.BuiltTablesValidate | src/common/config.c:668-807 | Every table built by any sequence of bindings passes the check and its size limit |
| ManagedKeys.BindingRead | src/common/config.c:735-775 | A key and its command with at least one blank between them, and blanks around them or not, are read as that binding |
| ManagedKeys.BindingRefused | src/common/config.c:735-775 | A value without a command, or without a key, is no binding |
| ManagedKeys.ApplyFileIsItems | src/common/config.c:1405-1442 | Loading by listing keys and looking each up is applying the entries in file order |
| ManagedKeys.RenderManagedConfig | src/common/config.c:1996-2053 | The line loop keeps what is outside the markers and appends the new block |
| ManagedKeys.AppendBlock | src/common/config.c:1951-1994 | The block holds an unbind line for each previous key and a bind line for each binding, numbered from 9000 |
| ManagedKeys.ParseRendered | src/common/config.c:1996-2053 | The rendered file parses to the entries kept and then those of the block |
| ManagedKeys.BoundEntryStable | src/common/config.c:668-733 | The stored name of a bound key parses back to that key if and only if it is not control and alt on one character |
| ManagedKeys.UnbindAll | src/common/config.c:1951-1975 | The unbind lines take exactly the previous keys out of any table |
| ManagedKeys.BindAll | src/common/config.c:1976-1994 | The bind lines put the bindings behind a table that has none of their keys |
| ManagedKeys.ManagedRoundTrip | src/common/config.c:1951-2053 | Saving bindings whose names parse back and loading the file gives exactly those bindings, in order, as the user's |
| SavedKeys.LoadRefused | src/common/config.c:1405-1442 | A saved file with a name in its block that does not parse back still parses as a file, and stops the whole load |
| SavedKeys.UnwritableName | src/common/config.c:362-630 | The accepted names that cannot be written on a line are exactly a blank behind nothing, Prefix-, M-, C-M- or the prefixed two |
| SavedKeys.SavedLoadsIff | src/common/config.c:1951-2053 | For accepted keys, saved or undone, the file loads to exactly the bindings if and only if none is control and alt on one character and every stored name can be written, without blank, tab or line break in it or any blank in front; otherwise nothing loads |
| SavedKeys.ControlMetaExample | src/common/config.c:1951-2053 | Binding M-C-x to quit and saving it leaves a file that does not load |
| SavedKeys.BlankExample | src/common/config.c:1951-2053 | So does binding the space bar, by its character, to quit |
| ManagedText.UnmanagedPreserved | src/common/config.c:1996-2053 | Everything outside the block is kept line for line, as long as no name or command hides a line that begins like a marker |
| ManagedText.SavingKeepsRest | src/common/config.c:1996-2053 | Accepted keys and known commands hide none, so saving them keeps the text of the rest |
| ManagedText.KeptMeansSame | src/common/config.c:1996-2053 | The kept text parses and every kept entry keeps its section if and only if the parser's section with the block and without it agree at each kept entry; the values then are those of the kept entries |
| ManagedText.SaveKeepsMeaning | src/common/config.c:1996-2053 | Then the saved file is the kept entries, meaning what they did, and the block's |
| ManagedText.OwnFilesAgree | src/common/config.c:1996-2053 | In a file the program saved they do agree, so saving again is safe |
| ManagedText.StrayLineExample | src/common/config.c:1996-2053 | A binding added behind the block is in no section after the next save, and the saved file does not parse |
| EventLog.Log.Append | src/controller/state.c:151-183 | A line is appended whole or the call fails, and fails only if the log is closed, the line does not fit or the write did not take all of it; the sequence number is used up either way |
| EventLog.AppendsAreLines | src/controller/state.c:151-183 | The log is the lines of the events that were not refused, and every append uses up one number |
| EventLog.EntriesOrdered | src/controller/state.c:151-183 | Sequence numbers on disk only grow and are each used once |
| EventLog.LineRead | src/controller/state.c:158-160 | A line read back gives the number and the text of its event |
| EventLog.ReadEvents | src/controller/control.c:563-620 | The page loop returns the lines the specification picks, with their count, or refuses the range |
| EventLog.FgetsReads | src/controller/control.c:587-590 | One read takes up to and with the next newline, and never more than 1023 bytes |
| EventLog.PiecesAreLines | src/controller/control.c:587-590 | Reading with a 1024-byte line buffer gives back the lines that were appended |
| EventLog.PageIs | src/controller/control.c:563-620 | A page is the next events after the given number, as many as the limit and 65536 bytes allow, and empty only if there are none |
| EventLog.FollowTiles | src/controller/control.c:563-620 | A client that keeps asking after the last number it got, with any page size while the log grows, gets lines that read back as consecutive events, numbers and texts: none twice, none left out, and at least one for each request made while the log held something newer |
| EventLog.FollowCatchesUp | src/controller/control.c:563-620 | Asking often enough of a log that holds some number of events shows them all, however it grows meanwhile |
| EventLog.PageOfRun | src/controller/state.c:151-183 | Those are the pages of the files that appending leaves |
| EventLog.TornHidesNext | src/controller/state.c:166-181 | The event behind a torn line is never shown under its own number, whatever is before and after it |
| EventLog.TornExample | src/controller/state.c:166-181 | Two bytes of the first event, and the second event is not shown |
| DetachFilter.Typist.ProcessChunk | src/cli/main.c:5251-5285 | A read of keys sends and remembers what the filter says, within its 4096-byte buffer; it fails if and only if a write does, and has then sent a part of that |
| DetachFilter.FilterMeans | src/cli/main.c:5251-5285 | An escape is pending after an odd run of escapes, a detach is asked for if and only if some d follows one, and what is sent is what was typed without those pairs |
| DetachFilter.SessionIsFilter | src/cli/main.c:5578-5688 | However keys are cut into reads the same keys detach, and the session is what the filter makes of the keys read: all of them, or those up to the end of the first read that detaches |
| DetachFilter.SentUpToDetach | src/cli/main.c:5251-5285 | Under every cutting everything typed before the first detaching pair is sent, and then what the rest of that read means |
| DetachFilter.NothingLost | src/cli/main.c:5251-5285 | Without a detach every key is sent, but for a pending escape |
| Scrollback.Ring.SetLimit | src/common/terminal_model.c:607-629 | A new limit empties the ring; without memory nothing changes |
| Scrollback.Ring.Capture | src/common/terminal_model.c:137-179 | The ring holds the newest lines, oldest first, up to its capacity |
| Scrollback.Ring.Take | src/common/terminal_model.c:631-662 | Every kept line is handed over once, oldest first |
| Scrollback.CapturedIsNewest | src/common/terminal_model.c:137-179 | After any number of lines the ring holds the last of all of them |

## Left out

- ManagedKeys.ManagedRoundTrip: asks that the kept part of the file loads, leaves the numbers from 9000 on free and binds no key outside the previous table; `SavedKeys.SavedLoadsIff` settles which keys can be saved under those conditions.
- ManagedText.UnmanagedPreserved: what is kept is followed by a newline, so a file grows by one blank line with every save.
- ControlSlot.Slot.EnqueueStreamBytes: attaching passes it a file that holds everything up to the published offset, as the controller writes before it publishes; a read error in the middle counts as a file that cannot be read.
- TerminalScan.SplitIndependent: asks for feeds of at most 4096 bytes; a longer feed is scanned from its last 4096 bytes only.
- EventLog.FollowTiles: events of one line each, with no torn write and numbers below 2^63.
- EventLog.TornHidesNext: the torn line and the one behind it together are shorter than the reader's 1024-byte line; longer ones are read in two pieces.
- Handshake.StreamDelivered: logs shorter than 2^63 bytes.
- DetachFilter.Typist.ProcessChunk: chunks of at most 4095 bytes, which is what its only caller reads.
- Offsets are unbounded numbers: 64-bit wrap-around of offsets and sequence numbers is not modelled.
- Texts of the configuration and event code hold no NUL character, where the program's strings would end.
- The queue of a connection is a sequence: reallocation moves no aliased memory in the model.
- The answers of the API handlers and of line commands other than attach are arguments of the state machine, not computed.
- Events that control operations append are not part of the controller's state; `EventLog` treats the log by itself.
- Idle clients being reaped and forwarded standard input: a close, and nothing, in the state machine.
- The unbind flag of a binding, which no binding in a table has set.
- The program's identical branches for two-, three- and four-byte sequences are one branch with a table of ranges.
- Sockets, files, clocks and memory appear as arguments or free choices.
- libeconf, yyjson, libvterm and OpenSSL; where a JSON reader is needed it is written from RFC 8259, section 7.
- The manager daemon, workspaces, relays and remote hosts.
- The desk user interface, command-line dispatch and usage texts.
- The JSON form of the event pages, key files and hexadecimal decoding, the remaining configuration keys: they would only add easy members.
