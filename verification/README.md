# A verified model of the connection engine of an HTTP/1.1 server

The project models what one worker of the server does with its connections, and proves what the parts
promise each other: receiving and framing of messages, the header codec, sending, the life of a session
with its timer, the ids of the sessions, and how a request line, a byte range and a mount are chosen.

`dafny verify dfyconfig.toml` checks all of it.

## How it is built

All completion handlers of a worker run on one thread, so each of them is one atomic step, and a
connection is an environment that completes outstanding operations with any bytes or an error.

Code that changes things step by step is a class or a method with loops: `LinkedBuffer`, `HeaderMatcher`,
`Message`, `TransmittingContent`, `TimingWheel`, `Transceiver`, `Session`, `Manager`, `Request`,
`FilesystemContent`, the two passes of the header encoder, the decoding loop, the range loop and the
mount selection. Each is proved against a value it stands for, and the hard properties are lemmas about
these values:

| file | stands for | main results |
|---|---|---|
| `Matcher` | the four-state automaton | status is the longest prefix of CRLFCRLF the input ends with; a resumed scan finds the first end of header |
| `Framing` | the one-shot parse of a byte stream (sections 2.1 and 6.2 of RFC 9112), the reference | parsing goes on where it stopped; no byte is lost; streams of encoded messages are recovered |
| `LinkedBuffer` | a FIFO queue of bytes on blocks | every operation on the blocks is the one on the queue |
| `Receiving` | the receive pipeline over its completions | whatever the reads, the messages delivered are those of the one-shot parse; the single-block invariant; byte conservation |
| `HeaderCodec`, `RoundTrip` | printing and reading a header | the round trip; self-delimiting encoding; when decoding does not end |
| `TransmittingContent`, `SendLoop` | a body that is filled while it is read; the chunked send | the reader is called once, with all it asked for; the wire carries the content |
| `TimingWheel` | a map from token to due tick | 120 circular lists refine it; a token fires on the 120th tick, once |
| `Lifecycle` | flags, outstanding operations and session of one connection | at most one termination, with nothing outstanding; which sessions never end |
| `Connection` | one connection in full: `Lifecycle` with the bytes of `Receiving` | what a session hands to its resource, over any run, is the one-shot parse |
| `Overlap` | a header read beside a body read | the framing survives exactly if the body read gets all its bytes first |
| `World` | all sessions of a worker with id pool and wheel | ids are conserved; no token is released twice; no session goes with an armed timer |
| `Transceiver`, `Session`, `Manager` | the objects themselves | each handler of a session is the step of `Connection`, each of the worker that of `World` |
| `RequestLine`, `Ranges`, `Routing` | parsing of the request line, range selection, longest-prefix routing | exact round trip; exact agreement with section 14.1.2 of RFC 9110; unique longest mount |

`Transceiver` holds both views at once: `Rx()` is the receiver of `Receiving`, `View()` the flags of
`Lifecycle`. Its handlers prove that the one moves by `Start`, `HeaderBytes` and `BodyBytes`, and the other
by the functions of `Lifecycle` itself (`AfterWait` and its like), from which `Session` has the whole step of
`Connection`. `Manager` owns the sessions, the id pool and the linked lists of the wheel, keeps their objects
apart, and takes the steps of `World`: a new session, anything that happens to one, and a whole tick. So the
theorems about runs of `World` and `Connection` are about these objects.

Bytes are characters below 256. `size_t` arithmetic is written out where it may wrap (`Text.Wrap`).

## What is assumed of callers

* A receive starts only once the previous body is complete (`Receiving.Enabled`, `Lifecycle.Enabled`,
  `Transceiver.AsyncReceive`). A resource that answers a request without waiting for its body can break
  this; `OverlapIsTheOnlyGap` shows that this is the only step that breaks the flags, `OverlapEndsTooEarly`
  and `OverlapIsRightIff` what follows.
* A read delivers no more than the room it was offered; a transfer moves at least one byte.
* `create_session` is called only while the id pool is not empty.
* `header_key_formalize` writes outside its string for an empty name and for one that ends in `-`. The
  server's own names are neither; that the names a WSGI application gives are neither (`Formalizable`) is an
  assumption on applications, as nothing in `wsgi_rnode.cpp` checks them.
* Every caller of `transmitting_content::async_read` asks for the whole tail (size 0). With another size
  the code keeps the size of an earlier request, and so does `Request`.

## Where the code falls short, and exactly when

* Decoding a header may never end: a turn that finds no `:` behind its offset wraps around to the line after
  the title, and inserts attributes again and again. There is no decoded header exactly if the loop's turns,
  in `size_t` arithmetic, never end (`NoneIffEndless`). For a header whose lines end in CRLF that is so
  exactly if it has attribute lines and the last of them has no `:` (`DecodesIffLastColon`); an earlier line
  without one runs on into the next name. `LastLineWithoutColon` and `EarlierLineWithoutColon` are headers
  of both kinds.
* A content-length that is no number, or negative, ends in an exception nobody catches (`NoLengthIff`,
  `NoLengthInputs`). This and an endless decoding are the outcome `Unreadable`.
* So does the error of a body read that nobody waits for, as `cancel` calls an empty function; and a resource
  may throw one. Such an exception leaves the worker's thread and ends the process. `CrashesIff` says which
  steps do it, `UnawaitedBodyCrashes` is a run: a file is served while the body of its GET is still under way,
  and then the peer goes away.
* A range header whose first range has a bound that is no number makes `stoll` throw in `_do_get`
  (`ThrowsIff`, `NoNumberThrows`).
* A session can be dead: not ended, and with nothing that could still happen to it, so that its id never
  comes back (`DeadSessionIsLost`). `DeadIff` says that over every run there are just three kinds.
  One is cancelled while the busy flag is still set that a receive of a body-less message from its buffer
  left (`CancelCompletesIffNotStale`, `IdleTerminatesIffNotStale`, and the run `StaleSessionLingers`). The
  second echoes a body whose read fails while the sender waits for it (`EchoIsLostIff`, and the run
  `FailedEchoIsDead`). The third had its request dropped: a filesystem node never calls its handler for PUT,
  DELETE and methods it does not know, a WSGI node not for an application that raises (`DropIsLostIff`, and the
  run `DroppedPutIsDead`).
* A header read beside a body read: see the first assumption above. `OverlapIsReached` is a run that gets
  there. Whatever the bytes, the framing survives it exactly if the body read gets all of its bytes before the
  header read gets one (`OverlapIsRightIff`); `OverlapGarbles` is an input.
* A body read that fails while the application waits for it goes unnoticed: the session answers and goes on
  (`FailedBodyGoesOn`), and what it hands over from then on is the parse of the bytes behind the failure alone
  (`HandsOverTheParse`). Without such a failure it is the parse of the whole stream (`WholeStream`, `AllHanded`).
* A content that ignores the read offset is on the wire, whatever its bytes, exactly after one full write
  (`WholeContentNeedsFullWrite`), which `async_write` promises; with partial writes that do not add up to
  the length the remainder wraps (`PartialWritesUnderflow`).
* For one range with decimal bounds below 2^63 and a file that is not empty, the answer is that of RFC 9110
  exactly in the cases `AnswersAsRfcIff` lists; `ServedIs` says what it is in all of them, `AnswersUnlikeRfc` has
  one range of each other kind.
* A request line is recovered exactly if it is `Recoverable`; `EmptyQueryIsDropped` and `UnknownIsConnect` are
  two that are not. What every other title is taken for say `PlainTitle`, `QueryTitle`, `NoVersion`,
  `NoVersionBehindQuery`, `OneWordIsEverything`, `OneWordWithQuery` and `MarkInMethod`.
* A response without content, as to OPTIONS, HEAD and a 304, ends its connection, whatever its header says of
  it (`ClosesIff`).
* A url that some mount starts goes to the longest of them exactly if an empty mount is not the only one
  (`RoutesToLongestIff`, with tables of both kinds in `EmptyMountTables`).

## Model

| member | source | states |
|---|---|---|
| `Matcher.HeaderMatcher.Match` | src/service/http/transceiver/transceiver.cpp:442-507 | one character moves the status as the automaton's table says; true exactly in status 4 |
| `Matcher.StatusIsLongestPrefix` | src/service/http/transceiver/transceiver.cpp:442-507 | as long as no header ended earlier, the status is the length of the longest prefix of CRLFCRLF that the input ends with |
| `Matcher.AcceptsAtFirstEnd` | src/service/http/transceiver/transceiver.cpp:442-507 | the automaton first accepts exactly where the first header ends |
| `Matcher.ResumedScan` | src/service/http/transceiver/transceiver.cpp:97-137 | a scan resumed with the carried status finds the first end of header of all bytes seen, or carries the status of all of them, however the input was split |
| `Matcher.AfterSplit` | src/service/http/transceiver/transceiver.cpp:131-137 | the status carried over two pieces is the one over both together |
| `Matcher.FirstEnd` | src/service/http/transceiver/transceiver.cpp:106-110 | the reference: the least index at which a header ends, or none |
| `Messages.ToLowerCase` | src/service/http/transceiver/message.hpp:25-38 | the loop lower-cases 64 to 90, `@` included, and nothing else |
| `Messages.Message.InsertAttribute` | src/service/http/transceiver/message.hpp:46-49 | the attribute goes into the multimap under its lower-cased name |
| `Messages.InsertKeeps` | src/service/http/transceiver/message.hpp:20-49 | insertion keeps the multimap sorted, puts the value behind those of the same name, leaves the values of every other name |
| `Messages.InsertAllSorted` | src/service/http/transceiver/message.hpp:46-49 | inserting a sorted list one by one rebuilds it, order among equal names included |
| `Messages.FindFirstIsOldest` | src/service/http/transceiver/message.hpp:51-54 | a lookup answers with the earliest inserted value of the name |
| `Messages.Message.GetContentLength` | src/service/http/transceiver/message.hpp:91-103 | 0 without the attribute, nothing when stoll throws, else its number as a size_t |
| `Messages.LengthIs` | src/service/http/transceiver/message.hpp:91-103 | without a content-length the length is 0; else the oldest one decides, by the number stoll reads in it |
| `Messages.StollReads` | src/service/http/transceiver/message.hpp:97 | white space, a sign, digits, and whatever follows: the number of the digits with that sign, if it fits in 64 bits |
| `Messages.StollThrows` | src/service/http/transceiver/message.hpp:97 | without a digit there, an exception |
| `Messages.NoLengthIff` | src/service/http/transceiver/message.hpp:91-103 | a message has no length its receiver can go on with exactly if its oldest content-length is no number or a negative one |
| `Messages.NoLengthInputs` | src/service/http/transceiver/message.hpp:97 | one of each: `x` throws, `-1` is 2^64 - 1, which no vector can hold |
| `Messages.OldestDecides` | src/service/http/transceiver/message.hpp:91-116 | the first content-length and the first connection attribute decide; later ones change neither the length nor keep-alive |
| `Messages.KeepAliveIff` | src/service/http/transceiver/message.hpp:105-116 | a message asks to be kept alive exactly if it has a connection attribute and the oldest one says keep-alive, in any case |
| `Messages.StollOfDecimal` | src/service/http/transceiver/message.hpp:97 | reading back a printed length gives the length |
| `HeaderCodec.HeaderKeyFormalize` | src/service/http/transceiver/transceiver.cpp:11-24 | the loop shifts the first character and each one after a `-` by 32, and no other |
| `HeaderCodec.FormalizeIs` | src/service/http/transceiver/transceiver.cpp:11-24 | character by character: the first one and each one behind a `-` becomes 32 less, modulo 256, a letter so its capital; every other one stays |
| `HeaderCodec.SurvivesIffRestored` | src/service/http/transceiver/transceiver.cpp:11-24 | lower-casing undoes the capitals on exactly the names with a letter at those places and no capital or `@` elsewhere |
| `HeaderCodec.EncodeHeader` | src/service/http/transceiver/transceiver.cpp:26-64 | the moving pointer fills the precomputed buffer exactly, with the encoded header |
| `HeaderCodec.MessageOnTheWire` | src/service/http/transceiver/transceiver.cpp:26-64 | one response, letter by letter |
| `HeaderCodec.HeaderSize` | src/service/http/transceiver/transceiver.cpp:28-34 | the first pass computes the size of all lines and line ends |
| `HeaderCodec.EncodeLines` | src/service/http/transceiver/transceiver.cpp:45-59 | the second pass appends one line per attribute to what is written and stays inside the buffer |
| `HeaderCodec.EncodeLine` | src/service/http/transceiver/transceiver.cpp:47-58 | name, colon, blank, value and line end go behind what is written |
| `HeaderCodec.DecodeLine` | src/service/http/transceiver/transceiver.cpp:76-83 | one turn inserts the attribute of its line and moves to the next line |
| `HeaderCodec.ReadLineIs` | src/service/http/transceiver/transceiver.cpp:76-83 | a turn reads the name up to the first `:`, skips all blanks behind it, and reads the value up to the first CR |
| `HeaderCodec.DecodeHeader` | src/service/http/transceiver/transceiver.cpp:66-87 | the loop yields the decoded header; it is given up only where its turns never end |
| `HeaderCodec.ColonTurn` | src/service/http/transceiver/transceiver.cpp:76-83 | in size_t arithmetic a turn with a `:` moves to the offset the model says |
| `HeaderCodec.NoColonReturnsToFirstLine` | src/service/http/transceiver/transceiver.cpp:74-84 | in size_t arithmetic a turn without a `:` leads back to the line after the title |
| `HeaderCodec.NoneIgnoresAccumulator` | src/service/http/transceiver/transceiver.cpp:74-84 | whether the turns from an offset end does not depend on the attributes read so far |
| `HeaderCodec.NoneIffEndless` | src/service/http/transceiver/transceiver.cpp:70-84 | there is no decoded header exactly if the loop, its offset computed in size_t arithmetic, finds no CR after any number of turns |
| `HeaderCodec.DecodesIffLastColon` | src/service/http/transceiver/transceiver.cpp:70-84 | a header whose lines end in CRLF is decoded exactly if it has no attribute line or its last one has a `:` |
| `HeaderCodec.TurnEnd` | src/service/http/transceiver/transceiver.cpp:76-83 | a turn ends at the first CR behind its `:`, whatever lines it ran over before |
| `HeaderCodec.LastLineWithoutColon` | src/service/http/transceiver/transceiver.cpp:70-84 | a header that is never decoded |
| `HeaderCodec.EarlierLineWithoutColon` | src/service/http/transceiver/transceiver.cpp:70-84 | a header with a line without `:` that is: its name runs over the line end |
| `RoundTrip.LineIsRead` | src/service/http/transceiver/transceiver.cpp:76-83 | an encoded line, anywhere in a buffer, is read back as its name and value |
| `RoundTrip.WireIsRead` | src/service/http/transceiver/transceiver.cpp:76-83 | so is a line with any number of blanks behind its colon |
| `RoundTrip.DecodeOfWire` | src/service/http/transceiver/transceiver.cpp:66-87 | a header with any number of blanks behind its colons is decoded to its title and, under the lower-cased names, its values in order |
| `RoundTrip.BlanksAreSkipped` | src/service/http/transceiver/transceiver.cpp:79 | a header with no blank, and one with two |
| `RoundTrip.DecodeOfEncode` | src/service/http/transceiver/transceiver.cpp:26-87 | for any readable header, decoding restores title and attributes under the names the wire made of them |
| `RoundTrip.RenamedIsIdentity` | src/service/http/transceiver/transceiver.cpp:11-24 | the wire keeps all names exactly if each of them survives |
| `RoundTrip.HeaderRoundTrip` | src/service/http/transceiver/transceiver.cpp:26-87 | decode(encode(m)) == m: title, names, values and the order among equal names |
| `RoundTrip.EncodeSelfDelimiting` | src/service/http/transceiver/transceiver.cpp:26-64 | whatever bytes follow, the first end of header is the encoded header's own |
| `Framing.ParseExtends` | src/service/http/transceiver/transceiver.cpp:89-144 | parsing a longer stream is going on with what the parse of the shorter one left |
| `Framing.ParseConserves` | src/service/http/transceiver/transceiver.cpp:340-370 | messages and rest of a parse, put together, are the stream |
| `Framing.StreamIsRecovered` | src/service/http/transceiver/transceiver.cpp:26-87 | encoded messages followed by the bodies they announce are recovered one by one |
| `Framing.DecimalLengthAnnounces` | src/service/http/resource/host.cpp:126-127 | a length printed with to_string announces that length |
| `Framing.NoLengthNoBody` | src/service/http/transceiver/transceiver.cpp:340-370 | a message without a content-length has no body: the next one starts right behind its header |
| `LinkedBuffers.LinkedBuffer.constructor` | src/service/http/transceiver/linked_buffer.hpp:23-29 | an empty queue |
| `LinkedBuffers.LinkedBuffer.Consume` | src/service/http/transceiver/linked_buffer.hpp:32-41 | drops a prefix of the queue; offset stays below the block size; only blocks without unread bytes go |
| `LinkedBuffers.LinkedBuffer.PopSpent` | src/service/http/transceiver/linked_buffer.hpp:37-41 | the loop gives back whole blocks and keeps all unread bytes |
| `LinkedBuffers.LinkedBuffer.Commit` | src/service/http/transceiver/linked_buffer.hpp:43-47 | appends what was written into the room |
| `LinkedBuffers.LinkedBuffer.GetAvailableBlock` | src/service/http/transceiver/linked_buffer.hpp:54-66 | a non-empty room at the end of the last block, behind every unread byte; the queue is unchanged |
| `LinkedBuffers.LinkedBuffer.Receive` | src/service/http/transceiver/linked_buffer.hpp:54-66 | writing into the room changes no unread byte |
| `LinkedBuffers.LinkedBuffer.GetDataBlocks` | src/service/http/transceiver/linked_buffer.hpp:68-88 | slices of the blocks that together are the first n bytes, nothing when there are fewer; the first one is what lies in the front block |
| `LinkedBuffers.LinkedBuffer.TakeData` | src/service/http/transceiver/linked_buffer.hpp:100-122 | copies the first n bytes across blocks, and changes neither the queue nor the rest of the target |
| `LinkedBuffers.CopySlices` | src/service/http/transceiver/linked_buffer.hpp:102-119 | the copying loop writes the slices one behind the other |
| `LinkedBuffers.LinkedBuffer.Accounting` | src/service/http/transceiver/linked_buffer.hpp:23-47 | offset, size and capacity add up to the block size times the number of blocks |
| `Receiving.StepIsParse` | src/service/http/transceiver/transceiver.cpp:89-178 | each step carries the parse of the stream on by the bytes it read, and keeps the invariant |
| `Receiving.ReachableIsParse` | src/service/http/transceiver/transceiver.cpp:89-178 | in every reachable state what is delivered and what is held are the parse of all that was read |
| `Receiving.DeliversOneShotParse` | src/service/http/transceiver/transceiver.cpp:89-178 | while a read is out, the messages delivered are exactly those of the one-shot parse, and the state is what that parse left |
| `Receiving.ReadyOwesBufferedMessages` | src/service/http/transceiver/transceiver.cpp:246-296 | between two receives, only the messages that are wholly buffered are still owed |
| `Receiving.ChunkingIndependence` | src/service/http/transceiver/transceiver.cpp:89-178 | two splits of one stream into reads deliver the same messages and leave the same bytes and state |
| `Receiving.SingleBlockWhenReady` | src/service/http/transceiver/transceiver.cpp:251-296 | whenever a receive may start, all unread bytes lie in the front block: scanning that block alone finds the first header, or carries the status of all buffered bytes |
| `Receiving.RoomEndsItsBlock` | src/service/http/transceiver/transceiver.cpp:286-295 | a header read is offered all the room left in the last block of 1024 bytes |
| `Receiving.FrontScan` | src/service/http/transceiver/transceiver.cpp:254-283 | with all unread bytes in one block, the scan of the front block finds the first header |
| `Receiving.BytesAreConserved` | src/service/http/transceiver/transceiver.cpp:340-370 | messages, message under way and buffer are together exactly the bytes read, in order; a body is read directly only while the buffer is empty |
| `Receiving.EncodedStreamIsDelivered` | src/service/http/transceiver/transceiver.cpp:26-178 | encoded messages with their bodies arrive one by one through any split into reads |
| `TransmittingContents.TransmittingContent.GetBuffer` | src/service/http/transceiver/transmitting_content.cpp:6-23 | the room behind the available bytes, up to the end of the body or of the size asked for |
| `TransmittingContents.TransmittingContent.Commit` | src/service/http/transceiver/transmitting_content.cpp:31-49 | more bytes are available; the reader is called exactly if its request can now be met; answers what is missing |
| `TransmittingContents.TransmittingContent.AsyncRead` | src/service/http/transceiver/transmitting_content.cpp:56-68 | registers the request, with the whole tail for size 0, and calls at once if it can be met |
| `TransmittingContents.TransmittingContent.Cancel` | src/service/http/transceiver/transmitting_content.cpp:25-29 | takes the request back and tells the reader |
| `TransmittingContents.TailIsMetOnce` | src/service/http/transceiver/transmitting_content.cpp:31-49 | a request for the tail is met by the commit that completes the body, and by no other |
| `TransmittingContents.Rendezvous` | src/service/http/transceiver/transmitting_content.cpp:31-68 | for every interleaving of commits with one read of the tail, the reader is called exactly once, with that tail, exactly when all bytes are there; the available bytes never exceed the length |
| `TransmittingContents.SizeIsIgnored` | src/service/http/transceiver/transmitting_content.cpp:56-68 | a request for some bytes is met with the size of the request before it |
| `TransmittingContents.EmptyTailIsNeverMet` | src/service/http/transceiver/transmitting_content.cpp:31-68 | a request for the tail behind the last byte is never met |
| `SendLoop.SeekableContentIsSent` | src/service/http/transceiver/transceiver.cpp:180-244 | for any partial transfers the wire carries a prefix of the content, the remainder counts down without wrapping, success comes once, exactly when all is sent |
| `SendLoop.WholeContentNeedsFullWrite` | src/service/http/transceiver/transceiver.cpp:195-239 | for every possible transfers, a content that ignores the offset is on the wire, whatever its bytes, exactly if there was one full write (none for no bytes) |
| `SendLoop.WholeContentSent` | src/service/http/transceiver/transceiver.cpp:195-239 | whatever the transfers, what remains is the length less what went out, modulo 2^64; success comes exactly at 0; the wire carries a prefix of the content per transfer |
| `SendLoop.PartialWritesUnderflow` | src/service/http/transceiver/transceiver.cpp:197 | two partial writes after which the remainder is 2^64 - 1 |
| `SendLoop.CompleteBodyIsSeekable` | src/service/http/transceiver/transmitting_content.cpp:56-68 | a complete body answers every read at once with the tail from the offset on |
| `TimingWheels.TimingWheel.constructor` | src/service/http/timer/timing_wheel.cpp:64-76 | 120 empty circular lists: a wheel without tokens |
| `TimingWheels.TimingWheel.Set` | src/service/http/timer/timing_wheel.cpp:50-57 | links a fresh token into the last list, keeps all lists circular and disjoint: the token is due on the 120th tick |
| `TimingWheels.TimingWheel.Cancel` | src/service/http/timer/timing_wheel.cpp:43-48 | unlinks any live token, keeps all lists circular and disjoint: the token is due no more |
| `TimingWheels.TimingWheel.Tick` | src/service/http/timer/timing_wheel.cpp:14-33 | fires exactly the tokens due, each once, and moves the wheel on |
| `TimingWheels.CallHandlers` | src/service/http/timer/timing_wheel.cpp:16-25 | the walk visits every node of the list after its sentinel, once, in order |
| `TimingWheels.TimingWheel.Rotate` | src/service/http/timer/timing_wheel.cpp:27-31 | a fresh sentinel takes the place of the front list; every other list moves one tick closer |
| `TimingWheels.LinkAfter` | src/service/http/timer/timing_wheel.cpp:52-55 | four pointer writes insert the token behind the sentinel and leave every other list as it was |
| `TimingWheels.Unlink` | src/service/http/timer/timing_wheel.cpp:45-46 | two pointer writes cut the token out of its list and leave every other list as it was |
| `TimingWheels.FiresOnTick120` | src/service/http/timer/timing_wheel.cpp:14-57 | over every run: a token set and not touched again fires once, on the 120th following tick, and not before; a cancelled one never |
| `Lifecycle.StepIsSafe` | src/service/http/session.cpp:10-146 | every step keeps: an outstanding operation has its flag set, one activity at a time, the timer armed exactly while an uncancelled wait is out; the terminating handler runs first and last with nothing outstanding |
| `Lifecycle.RunIsSafe` | src/service/http/session.cpp:10-146 | over all interleavings of completions, answers and timeouts the invariant holds |
| `Lifecycle.TerminatesAtMostOnce` | src/service/http/session.cpp:130-146 | the terminating handler runs at most once; when it has run nothing is outstanding and nothing can happen to the session |
| `Lifecycle.TimerIff` | src/service/http/session.cpp:10-71 | the timer is set, and the next request waited for, exactly once an answer is out on a connection that is kept alive; it is released exactly when a wait is over |
| `Lifecycle.LastOutTells` | src/service/http/transceiver/transceiver.cpp:146-189 | whatever completes on a cancelled transceiver, with an error or not: its flag goes, nothing new is begun, and the last one out, and only it, runs the handler |
| `Lifecycle.CanceledTakesNoBody` | src/service/http/transceiver/transceiver.cpp:146-369 | a message found on a cancelled transceiver: no body read is begun, and the sending flag is set in its place |
| `Lifecycle.ClosesIff` | src/service/http/transceiver/transceiver.cpp:307-336 | a session is asked to end exactly by a failed wait, read or send, a response without content, its timer, or the answer to its last request |
| `Lifecycle.EndsIff` | src/service/http/transceiver/transceiver.cpp:415-429 | it has ended then exactly if no flag is left |
| `Lifecycle.RequestIff` | src/service/http/session.cpp:87-128 | a resource works on a request from the step that finds it to the one that answers, drops or throws |
| `Lifecycle.KeptAliveIff` | src/service/http/session.cpp:87-92 | the request found says whether the connection is kept alive, and nothing else changes that |
| `Lifecycle.HeaderReadIff` | src/service/http/transceiver/transceiver.cpp:286-295 | a header is read from the step that finds none on, until it is there |
| `Lifecycle.BodyReadIff` | src/service/http/transceiver/transceiver.cpp:146-178 | a body is read from the step that finds it incomplete on, until it is complete, fails, or the transceiver is cancelled |
| `Lifecycle.ReceivingIff` | src/service/http/transceiver/transceiver.cpp:246-296 | the receiver's flag is set exactly while a read is out or stale; stale is exactly what a receive of a body-less or unreadable message from the buffer leaves until the next receive |
| `Lifecycle.SendsIs` | src/service/http/transceiver/transceiver.cpp:298-379 | what is being sent after every step: the header of an answer, its content, the request's own body once it is there, or nothing |
| `Lifecycle.ReaderIs` | src/service/http/transceiver/transmitting_content.cpp:25-68 | who waits for the body after every step: the application that asked, the sender that echoes, or nobody |
| `Lifecycle.SendingIff` | src/service/http/transceiver/transceiver.cpp:366-379 | the sender's flag is set while something is sent, by a body that is found, and is left set by an echo that fails |
| `Lifecycle.OverlapIsTheOnlyGap` | src/service/http/transceiver/transceiver.cpp:246-296 | a successful wait keeps the invariant whatever it finds exactly if no body is being read |
| `Lifecycle.OverlapEndsTooEarly` | src/service/http/transceiver/transceiver.cpp:139-143 | with a body being read, a failing header read ends the session while that body read is out |
| `Lifecycle.OverlapIsReached` | src/service/http/resource/filesystem/filesystem_rnode.cpp:96-198 | a run to that state: a file is served, without waiting, while the body of its GET is still under way |
| `Lifecycle.CrashesIff` | src/service/http/transceiver/transmitting_content.cpp:25-29 | a step ends in an exception, or in an endless decoding, exactly if it takes an unreadable header, brings a body read's error to a transceiver that is not cancelled and whose body nobody waits for, or is an exception of the resource |
| `Lifecycle.UnawaitedBodyCrashes` | src/service/http/transceiver/transceiver.cpp:174-177 | a run that does |
| `Lifecycle.FailedBodyGoesOn` | src/service/http/resource/wsgi/wsgi_rnode.cpp:161-169 | a run in which a body read fails, the application answers all the same, and the session waits for its next request as at its start |
| `Lifecycle.CancelCompletesIffNotStale` | src/service/http/transceiver/transceiver.cpp:246-280 | in whatever order the operations of a cancelled session complete, once none is outstanding it has ended exactly if no stale flag is left |
| `Lifecycle.CanceledCanComplete` | src/service/http/transceiver/transceiver.cpp:415-429 | such completions there are for every cancelled session with an operation outstanding |
| `Lifecycle.IdleTerminatesIffNotStale` | src/service/http/transceiver/transceiver.cpp:415-429 | a session with nothing outstanding ends at once on request exactly if neither a stale flag nor a lost echo's is left |
| `Lifecycle.DeadIff` | src/service/http/transceiver/transceiver.cpp:202-230 | over every run: nothing can happen any more to a session that has not ended exactly if it is cancelled with a stale flag, its echo is lost, or its request was dropped and no body of it is on its way |
| `Lifecycle.EchoIsLostIff` | src/service/http/transceiver/transceiver.cpp:204-230 | a step loses the echo exactly if it is a failing body read that the send loop waits for |
| `Lifecycle.FailedEchoIsDead` | src/service/http/transceiver/transceiver.cpp:204-230 | a run to a dead session of that kind |
| `Lifecycle.DropIsLostIff` | src/service/http/resource/filesystem/filesystem_rnode.cpp:225-231 | a step loses a session by a dropped request exactly if the resource drops it with no body under way, or the rest of its body arrives; if that body fails instead, the process ends |
| `Lifecycle.DroppedPutIsDead` | src/service/http/resource/filesystem/filesystem_rnode.cpp:225-227 | a run to a dead session of that kind: a PUT without a body |
| `Lifecycle.StaleSessionLingers` | src/service/http/transceiver/transceiver.cpp:246-280 | a run of two body-less requests in one read after which the session is cancelled, not ended, and dead |
| `Connections.StepKeeps` | src/service/http/session.cpp:10-103 | every step keeps flags and received bytes in agreement: what is outstanding is what the receiver waits for, and what it holds is the parse of what was read |
| `Connections.EncodedIsFound` | src/service/http/transceiver/transceiver.cpp:97-123 | an encoded request is found with the body it announces, as far as that is there, and with its own wish for the connection |
| `Connections.StepHands` | src/service/http/session.cpp:24-34 | a step hands over the message it finds in the bytes, if any, and no other; a failed body read hands over none |
| `Connections.HandsOverTheParse` | src/service/http/session.cpp:87-103 | over every run, what a session hands to its resource is what the one-shot parse finds in the stream, from behind the last failed body read; while a read is out nothing is owed |
| `Connections.WholeStream` | src/service/http/transceiver/transceiver.cpp:161-177 | without a failed body read that is the whole stream |
| `Connections.AllHanded` | src/service/http/session.cpp:87-103 | ... and all that was handed over |
| `Connections.WholeRunHands` | src/service/http/session.cpp:87-103 | without a failed body read, and while a read is out, the messages handed over are those of the one-shot parse of all bytes read |
| `Connections.EncodedRequestsAreHanded` | src/service/http/transceiver/transceiver.cpp:26-178 | encoded requests with the bodies they announce are handed over one by one, whatever the reads |
| `Overlaps.OverlapDelivers` | src/service/http/transceiver/transceiver.cpp:89-178 | of two reads at once, the body read makes the body of the bytes it gets, the header read parses those it gets |
| `Overlaps.RightIff` | src/service/http/transceiver/transceiver.cpp:89-178 | that is the one-shot parse of the stream exactly if the stream is the bytes of the one followed by those of the other |
| `Overlaps.OverlapIsRightIff` | src/service/http/transceiver/transceiver.cpp:89-178 | whatever the bytes, exactly if the body read gets all of its bytes before the header read gets one |
| `Overlaps.OverlapGarbles` | src/service/http/transceiver/transceiver.cpp:89-178 | one byte that goes astray |
| `World.StepKeeps` | src/service/http/manager.cpp:24-43 | every step of the worker keeps ids and tokens in order and asks only for proper releases |
| `World.RunKeeps` | src/service/http/manager.cpp:24-43 | over every run no token is released unless set and its owner's, and no session goes while anything could call back into it |
| `World.IdConservation` | src/service/http/manager.cpp:8-43 | the pool has no duplicates, is disjoint from the live sessions, and together they are the ids 0 to 131071 |
| `World.LastBackIsNextOut` | src/service/http/manager.cpp:24-43 | the id of a session that has gone is the next one to be given away |
| `World.TokenLifecycle` | src/service/http/session.cpp:10-71 | a session is armed exactly if one token, its own, is set, and only while it waits |
| `World.DeadSessionIsLost` | src/service/http/manager.cpp:38-42 | a dead session stays as it is over every run, and its id never comes back to the pool |
| `World.HandlersLeaveWheelAlone` | src/service/http/timer/timing_wheel.cpp:19-25 | a handler that fires asks nothing of the wheel, so the walk of the tick is not disturbed |
| `Transceivers.Transceiver.constructor` | src/service/http/transceiver/transceiver.cpp:436-440 | nothing outstanding, no flag set, an empty buffer |
| `Transceivers.Transceiver.AsyncWait` | src/service/http/transceiver/transceiver.cpp:381-413 | a wait is out and its flag set; nothing else changes |
| `Transceivers.Transceiver.WaitHandler` | src/service/http/transceiver/transceiver.cpp:387-409 | the wait is over; a cancelled transceiver's last completion, and only it, runs the cancellation handler |
| `Transceivers.Transceiver.Cancel` | src/service/http/transceiver/transceiver.cpp:415-434 | runs the handler at once exactly if no flag is set, else leaves it to the last completion |
| `Transceivers.Transceiver.AsyncReceive` | src/service/http/transceiver/transceiver.cpp:246-296 | delivers the first header of the buffered bytes with its body, or asks for a read; the receiver takes the step Start |
| `Transceivers.Transceiver.HeaderReceivingHandler` | src/service/http/transceiver/transceiver.cpp:89-144 | with the bytes just read, delivers the first header of all bytes held, or asks for more; the receiver takes the step HeaderBytes |
| `Transceivers.Transceiver.Proceed` | src/service/http/transceiver/transceiver.cpp:106-137 | the first header found is delivered; without one, a read into the room behind the buffered bytes is asked for, with the matcher's status carried |
| `Transceivers.Transceiver.TakeMessage` | src/service/http/transceiver/transceiver.cpp:109-123 | cuts the header off the buffer, decodes it and takes its body as CutHeader says; lost exactly if the header is unreadable |
| `Transceivers.Transceiver.ReceiveContent` | src/service/http/transceiver/transceiver.cpp:340-370 | the body starts with what is buffered, as TakeBody says; only the rest is asked of the socket |
| `Transceivers.Transceiver.ReceiveBody` | src/service/http/transceiver/transceiver.cpp:344-369 | the same for a body of at least one byte, with the flags it sets |
| `Transceivers.Transceiver.ContentReceivingHandler` | src/service/http/transceiver/transceiver.cpp:146-178 | commits the bytes, reads on while some are missing, completes the body otherwise; on an error the reader is told; cancelled, the last one out runs the handler |
| `Transceivers.Transceiver.OnBodyRead` | src/service/http/transceiver/transceiver.cpp:146-178 | a completed body read: the receiver takes the step BodyBytes, the flags change as Lifecycle says |
| `Transceivers.Transceiver.OnContentRead` | src/service/http/transceiver/transceiver.cpp:204-229 | the send loop's reader finds the body and starts to send it from its beginning |
| `Transceivers.Transceiver.AwaitBody` | src/service/http/resource/wsgi/wsgi_rnode.cpp:157-169 | the application waits for the whole body; nothing else changes |
| `Transceivers.Transceiver.AsyncSend` | src/service/http/transceiver/transceiver.cpp:298-338 | the encoded header goes out, the sending flag is set |
| `Transceivers.Transceiver.OnHeaderSent` | src/service/http/transceiver/transceiver.cpp:307-336 | without content or on an error the callback fails, else the content is sent from its beginning; cancelled, the last one out runs the handler |
| `Transceivers.Transceiver.SendContent` | src/service/http/transceiver/transceiver.cpp:372-379 | an empty content succeeds at once, one that is there is sent from its beginning, one still under way is waited for |
| `Transceivers.Transceiver.ContentSendingHandler` | src/service/http/transceiver/transceiver.cpp:180-244 | one turn of the send loop takes the step Sent, and reports success exactly when nothing remains |
| `Transceivers.Transceiver.OnContentSent` | src/service/http/transceiver/transceiver.cpp:180-244 | a completed transfer: the send loop takes the step Sent, the flags change as Lifecycle says |
| `Transceivers.ScanSlice` | src/service/http/transceiver/transceiver.cpp:104-107 | the scanning loop stops behind the accepting character, or carries the status of all n |
| `Transceivers.FindInBuffer` | src/service/http/transceiver/transceiver.cpp:249-284 | a new matcher runs over what lies in the front block, and over nothing else |
| `Transceivers.ScanRead` | src/service/http/transceiver/transceiver.cpp:102-128 | the carried matcher runs over the new bytes, which are then part of the queue |
| `Transceivers.ReadMessage` | src/service/http/transceiver/transceiver.cpp:112-118 | copies the header out, drops it from the queue and decodes it; one block is left |
| `Transceivers.TakeBuffered` | src/service/http/transceiver/transceiver.cpp:348-362 | a new content filled with what is buffered of it, which leaves the queue |
| `Transceivers.FillFromBuffer` | src/service/http/transceiver/transceiver.cpp:357-362 | take, consume and commit move a prefix of the queue into the content |
| `Sessions.Session.Start` | src/service/http/session.cpp:141-146 | sets the timer, then waits: the first state of Lifecycle |
| `Sessions.Session.OnWait` | src/service/http/session.cpp:10-22 | a completed wait is the connection's step, flags, bytes and effects in order: the timer is released before anything is received; what arrives is the first message buffered |
| `Sessions.Session.OnHeader` | src/service/http/session.cpp:24-34 | a completed header read is the connection's step: what arrives is the first message of all bytes held, and its wish to keep alive is heeded |
| `Sessions.Session.OnBody` | src/service/http/transceiver/transceiver.cpp:146-178 | a completed body read is the connection's step: the receiver takes the step BodyBytes, or starts afresh after an error |
| `Sessions.Session.OnAwaitBody` | src/service/http/resource/wsgi/wsgi_rnode.cpp:157-169 | a resource that waits for the body is the connection's step |
| `Sessions.Session.DoPostProcess` | src/service/http/session.cpp:105-120 | date, server and connection are added, the latter as the session means to go on |
| `Sessions.DressedSays` | src/service/http/session.cpp:105-120 | date, server and the session's own word on the connection come last among the values of their names; nothing else is added or lost |
| `Sessions.ClientIsTold` | src/service/http/session.cpp:105-128 | decoded, the header that goes out has all that, with keep-alive or close as the last word |
| `Sessions.Session.OnAnswer` | src/service/http/session.cpp:94-128 | an answer is the connection's step: what goes out is the encoded header of the answer with date, server and connection added |
| `Sessions.Session.OnDropped` | src/service/http/resource/filesystem/filesystem_rnode.cpp:225-231 | a request that is let go unanswered is the connection's step: nothing else happens |
| `Sessions.Session.OnThrown` | src/service/http/resource/filesystem/filesystem_rnode.cpp:135 | an exception that leaves a resource is the connection's step: the process ends |
| `Sessions.Session.OnHeaderSent` | src/service/http/session.cpp:36-59 | a sent header is the connection's step: without content the session is asked to end, without bytes the next request is waited for if there is to be one, else the content is sent |
| `Sessions.Session.OnContentSent` | src/service/http/session.cpp:36-59 | a sent piece of content is the connection's step |
| `Sessions.Session.OnTimeout` | src/service/http/session.cpp:61-70 | the expired timer is the connection's step: the session asks to terminate |
| `Sessions.Session.Handle` | src/service/http/session.cpp:10-128 | whatever is due to a session, it takes the step of its connection, asks what that step asks for, takes in only new objects; an answer goes out with what is added to it |
| `Sessions.Session.DueIsEnabled` | src/service/http/session.cpp:10-128 | what is due is enabled, so every run of a session is one of `Connections` |
| `Sessions.Session.NextRequest` | src/service/http/session.cpp:48-59 | kept alive, the timer is set and a wait begins; else the session asks to terminate |
| `Sessions.Session.Terminate` | src/service/http/session.cpp:130-139 | the terminating handler runs now if nothing is busy, else it is left to the last completion |
| `Managers.Manager.constructor` | src/service/http/manager.cpp:8-17 | the loop fills the pool with the ids 0 to 131071, each once; no sessions and an empty wheel: the first state of World |
| `Managers.Manager.CreateSession` | src/service/http/manager.cpp:24-43 | the last id of the pool names a new session, which waits with its timer set: World's step |
| `Managers.Manager.SetTimer` | src/service/http/timer/timer.cpp:12-15 | a new token in the wheel, remembered for the session |
| `Managers.Manager.CancelTimer` | src/service/http/timer/timer.cpp:17-20 | the remembered token, which is set, leaves the wheel |
| `Managers.Manager.Terminated` | src/service/http/manager.cpp:38-42 | the id goes back to the pool and the session away |
| `Managers.Manager.OnSession` | src/service/http/session.cpp:10-128 | whatever happens to a session object, and what it then asks of wheel and pool, is World's step, with all other sessions left as they are |
| `Managers.Manager.OnTick` | src/service/http/timer/timing_wheel.cpp:14-33 | the loop over the tokens that are due is World's run of their handlers, one by one, and of the end of the tick |
| `Managers.Manager.Handled` | src/service/http/manager.cpp:35-42 | a handler of one session leaves the wheel, the pool and every other session as they are |
| `World.FireIs` | src/service/http/timer/timing_wheel.cpp:19-25 | the handler of a due token only makes its session ask to terminate |
| `RequestLine.MethodIs` | src/service/http/resource/request.hpp:69-107 | each of the eight names is its method, and every other text is UNKNOWN |
| `RequestLine.MethodRoundTrip` | src/service/http/resource/request.hpp:69-142 | printing and parsing a method gives it back exactly if it is not UNKNOWN, whose text is CONNECT |
| `RequestLine.Request.ExtractTitle` | src/service/http/resource/request.hpp:39-66 | the fields, taken one after the other with a running offset, are those of the parse; the query keeps its value when there is none |
| `RequestLine.CutIs` | src/service/http/resource/request.hpp:50-65 | in size_t arithmetic a field without its delimiter is the whole rest, and the next one starts at the beginning again |
| `RequestLine.ParseNeverThrows` | src/service/http/resource/request.hpp:39-66 | whatever the title, no substr is out of range |
| `RequestLine.PlainTitle` | src/service/http/resource/request.hpp:39-66 | method, url, version: the query keeps its value; of the version all up to a CR |
| `RequestLine.QueryTitle` | src/service/http/resource/request.hpp:39-66 | method, url, query, version, whatever other blanks and marks there are |
| `RequestLine.NoVersion` | src/service/http/resource/request.hpp:39-66 | without a version the whole title is taken for one |
| `RequestLine.NoVersionBehindQuery` | src/service/http/resource/request.hpp:39-66 | also behind a query |
| `RequestLine.OneWordIsEverything` | src/service/http/resource/request.hpp:39-66 | a one-word title is taken for method, url and version at once |
| `RequestLine.OneWordWithQuery` | src/service/http/resource/request.hpp:39-66 | with a `?` in it, url and query are what lies before and behind that |
| `RequestLine.MarkInMethod` | src/service/http/resource/request.hpp:39-66 | with its only `?` before the first blank, the method is taken for the query, too, and all the rest for the url |
| `RequestLine.RequestLineRoundTrip` | src/service/http/resource/request.hpp:39-107 | parsing a line printed by the grammar of section 3 of RFC 9112 returns its four parts, with and without a query, exactly if the line is recoverable |
| `RequestLine.EmptyQueryIsDropped` | src/service/http/resource/request.hpp:48-62 | `GET /a?` comes back as `/a` |
| `RequestLine.UnknownIsConnect` | src/service/http/resource/request.hpp:109-142 | a printed unknown method comes back as CONNECT |
| `Ranges.FindText` | src/service/http/resource/filesystem/filesystem_rnode.cpp:33 | the first place at which the text occurs, or none |
| `Ranges.ExtractRanges` | src/service/http/resource/filesystem/filesystem_rnode.cpp:31-80 | the loop ends, its offset strictly advancing, with the ranges of the header |
| `Ranges.ReadRange` | src/service/http/resource/filesystem/filesystem_rnode.cpp:46-78 | one turn reads one range and moves on to the comma behind it |
| `Ranges.RangesConserve` | src/service/http/resource/filesystem/filesystem_rnode.cpp:44-79 | the ranges, glued by their dashes, are the header's text up to an end without a dash |
| `Ranges.FirstRange` | src/service/http/resource/filesystem/filesystem_rnode.cpp:31-80 | the first range of `bytes=a-b` is (a, b), whatever ranges follow |
| `Ranges.DoGetRange` | src/service/http/resource/filesystem/filesystem_rnode.cpp:124-193 | status and bytes served: 200 with the file, 206 with an inner part of it, 416, or an exception of stoll; for a range of the standard's grammar, byte for byte |
| `Ranges.PartialIsInside` | src/service/http/resource/filesystem/filesystem_rnode.cpp:133-183 | every 206 lies inside the file, whatever the header says |
| `Ranges.SetRange` | src/service/http/resource/filesystem/filesystem_rnode.cpp:130-181 | status and range of the content, bound by bound: 206, 416, or an exception of stoll |
| `Ranges.AnswerIs` | src/service/http/resource/filesystem/filesystem_rnode.cpp:130-181 | the answer to a first range a-b, by the numbers stoll reads in a and b: an open range runs to the end, a last position alone from the start, a closed range needs two bytes inside the file, all else is 416 |
| `Ranges.FullIff` | src/service/http/resource/filesystem/filesystem_rnode.cpp:126-188 | the whole file is served with a 200 exactly if the header has no `bytes=`, or no dash behind it |
| `Ranges.ServedIs` | src/service/http/resource/filesystem/filesystem_rnode.cpp:130-181 | the answer to every range of the standard's grammar, a suffix among them: its length is taken for a last position |
| `Ranges.ThrowsIff` | src/service/http/resource/filesystem/filesystem_rnode.cpp:133-152 | stoll throws exactly if the first position is no number, or the last one is none behind a first position inside the file |
| `Ranges.NoNumberThrows` | src/service/http/resource/filesystem/filesystem_rnode.cpp:135 | a header that makes it throw |
| `Ranges.AnswersAsRfcIff` | src/service/http/resource/filesystem/filesystem_rnode.cpp:124-193 | for one range with decimal bounds below 2^63 and a file that is not empty, the answer is that of section 14.1.2 of RFC 9110 exactly for open ranges and for closed ones past the end or of two bytes and more inside the file |
| `Ranges.AnswersUnlikeRfc` | src/service/http/resource/filesystem/filesystem_rnode.cpp:150-179 | what a single byte, a range over the end and a suffix get, and what they should |
| `Routing.Select` | src/service/http/resource/host.cpp:66-83 | the loop ends with a longest mount that starts the url, and tells whether any does |
| `Routing.AsyncRequest` | src/service/http/resource/host.cpp:33-100 | the route is that of the set of mounts, so it is the same for every order in which they are visited |
| `Routing.RoutesToLongestIff` | src/service/http/resource/host.cpp:66-92 | for every table, a url that some mount starts goes to the longest of them exactly if an empty mount is not the only one |
| `Routing.RoutesToLongest` | src/service/http/resource/host.cpp:66-100 | unless only an empty mount starts the url: the route goes to m exactly if m is the longest mount that does, 404 exactly if none does; mount and sub-url make up the url, `/` hands on all of it |
| `Routing.EmptyMountIsLost` | src/service/http/resource/host.cpp:66-92 | if only an empty mount starts the url: undefined without a mount named `<default>`; with one, an exception for a url shorter than that name, else that node gets the url without its first nine characters |
| `Routing.EmptyMountTables` | src/service/http/resource/host.cpp:66-92 | tables that go wrong, and one with an empty mount beside a longer one that does not |

## Left out

- Sockets, TLS, listeners and worker threads: a connection is an environment that completes what is outstanding.
- XML configuration, Boost.Python and WSGI calls, memory mapping, MIME types, error pages and dates: I/O, foreign calls or constant tables. The date of a response is a parameter.
- Access control and authentication: decisions of one branch over opaque base64 text.
- The path depth check of `host.cpp`: its counter is unsigned, so it never refuses anything.
- The move constructor of `linked_buffer`, which nothing here uses and which drops the offset.
- `request::get_title`: it adds an enum to a string literal. A printer of the grammar stands in for it.
- Uniqueness of content-length in responses: the lookup before it is added is misspelled, and the multimap permits duplicates.
- Liveness of pipelining: the session waits for the socket even when a whole request is already buffered. Only safety is proved.
- `multimap::find` among equal names: the first of them, as libstdc++ answers; the standard leaves it open.
- Failing allocations, and a content-length no vector can hold: not modelled.
- A request whose title cannot be parsed: `RequestLine` shows that parsing never throws, so no state of `Lifecycle` stands for it.
- Reuse of the address of a deleted timer token: a new token gets any address that is not in use, so an old one may come back; a session's stale token is not touched again.
- TimingWheels.TimingWheel.Tick: lists the handlers of the list in order instead of calling them during the walk; `Managers.Manager.OnTick` calls them, in this order, once the lists have turned, and `World.HandlersLeaveWheelAlone` says that they leave the lists alone.
- Which answer a resource gives: `Lifecycle` leaves it to the environment, whether it answers, drops the request or throws; `Ranges.ThrowsIff` says when a range request ends in an exception.
- The content of a message and its content-range text: contents are passed beside the message, and the text repeats the range strings.
- Sessions.Session.OnHeaderSent: does not model a response that echoes the body of another request; the content to echo is the one just received, complete or under way.
- Transceivers.Transceiver.OnHeaderSent: sends an echoed body that is complete as the bytes it holds; `SendLoop.CompleteBodyIsSeekable` says that its reads answer with these.
