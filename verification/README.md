# GameFlow SDK: models and proofs

The GameFlow game-server SDK exists in several languages over one written
behavioural contract. This project models its state machines in Dafny and proves what they keep for
every byte split, every interleaving and every re-entrant callback.

`dafny verify dfyconfig.toml` checks everything.

| module | what it models |
|---|---|
| Options | an optional value |
| Int32 | 32-bit signed integers, whose overflow is assumed to wrap |
| Lines | newline framing as a function of a byte stream, and its algebra |
| ChunkedNdjson, ChunkedCoding | the Unreal decoder of a chunked body, and the encoder of section 7.1 of RFC 9112 it must invert |
| WatchConnection | one Unreal watch connection: header stripping, framing, delivery, destruction by a callback |
| CutDependence | when the way a response is cut shows in what Unreal delivers |
| RustFraming | the Rust draining buffer, and its agreement with Unreal |
| JsonReader, JsonGrammar, JsonLanguage, JsonWriter | the Unity JSON reader and writer against concrete syntax trees of RFC 8259, sections 2 to 7, and of exactly the other texts the reader takes |
| RustWatch, RustServed, RustCalls, RustWatcher | the Rust watch multiplexer as a protocol over lock sections, when its subscribers have a stream, when a stream has subscribers, and those sections in place on an object |
| UnityWatch, UnityWatcher | the same for Unity |
| Lifecycle, LifecycleAnswers | ready, shutdown and the guarded transport as a compare-and-swap protocol, and what callers are told |
| PlayerTracking, PlayerOutcomes, PlayerObjects | local runtime, fake runtime, REST transport and player cache, as functions, call by call in terms of the list, and as objects |
| UnrealWatcher | the re-entrant Unreal watcher with its tickers |
| Streaks, Health, Backoff, Payload | runs of failures, the heartbeat loops, the backoff counters and retry budget, the payload events |

Loops and objects of the source are loops and objects here, each proved against a function; the
laws are proved about the functions. The concurrent protocols are runs of atomic steps, one per lock
section, atomic operation, spawn or request; a run is any sequence of steps.

What the outside world does is an input: the answers of Recv, the outcomes of requests and pings,
the time a probe takes, the jitter factor (any value the source can draw), the acts of callbacks and
the choice of the next step. Two libraries stay uninterpreted: whether a watch line holds a server
object, and the C# number parsers, of which only their documented behaviour on the grammar's own
tokens is required, and that they refuse an empty token.

## Where the code departs from its documentation, or a law has an exact condition

- **Chunk sizes of 2^31 and more** are misread by Unreal, because the size is accumulated in 32 bits
  (`HeaderFaithful`, `OversizeEndsBody`).
- **A callback that closes the Unreal connection** without destroying it, as the watcher's deferred
  teardown does, lets the cuts of the response show in what is delivered: frames in the same read are
  still delivered, later ones are not (`CutIndependentIff`, `CutsShow`). If that read filled the
  4096-byte buffer, the loop calls Recv through a null socket (`DrainReadable`, `MeetNullSocket`).
- **A watch line with both an object and an error** is reported by Unreal and dropped by Rust
  (`SinksAgreeIff`, `SinksDiffer`); the contract's Watch section says error lines are skipped.
- **The Rust watch can lose its stream**: a closing subscriber lets go of the dispatch lock before it
  closes the stream, and may close the one a new subscriber relies on; and a listener that panics ends
  the stream task while its token stays, so that nothing starts another (`ServedIff`,
  `ServedWhenRegisterWaits`, `ListenerWithoutStream`, `PanickingListener`). The contract's Watch section
  wants the stream closed when the last unsubscribes, and a reconnect on failure.
- **The Rust watch reconnects** with a cap of 5000 ms and no jitter, where the contract's Watch section
  asks for the connect parameters (4000 ms, 20%). The model follows the code; the sleeps conform up to
  four doublings (`SleepConformsIff`, `SixBarrenStreams`).
- **A Unity loop ends for good** when the transport raises a cancellation although its token is not
  cancelled; its subscribers get nothing until there are none (`FlowsIff`, `AbortedSubscriber`).
- **A Unity handle from before Dispose** can take away a later subscription to the same callback
  (`SubscribersAfterDisposeIff`, `StaleHandleAfterDispose`).
- **A ready under way** when a shutdown is claimed still sends its request, because the guard only looks for
  the end of the shutdown (`ReadyDuringShutdown`).
- **A second shutdown returns before the first is done**, and players calls get through until it is
  (`SecondShutdownReturnsEarly`, `ReturnSilencesIff`), while `sdk/rust/gameflow/src/gameflow.rs:351-353`
  and the contract's Shutdown section say every other method fails afterwards.
- **The player cache** disagrees with the runtime after a call that changed the list when its answer or
  the read after it was lost, and only then (`AgreementIff`, `AgreementHistoryIff`, `LostPlayer`).
- **Unlimited local mode** is not equivalent to any runtime list (`ObservablyEqualIff`, `UnlimitedDiffers`).
- **Unreal subscribers can be stuck**, with no live connection and no pending ticker; a lost stream is
  retried exactly when they are not (`Retry`, `RetryAfter`). They become stuck by a close, a frame with a
  closing callback, or an opening that gets no socket (`Handle`), and stay so until nobody is subscribed
  (`Drive`, `FrameThenTicker`, `ReplaceInsideFrame`, `NeverRetried`). The contract's Watch section wants
  a stream from the first subscriber on, and a reconnect on failure.
- **An Unreal watcher destroyed inside a callback** leaves a ticker that refers to it (`Destroy`).
- **Payload events** alone let a listener follow the payload exactly when no poll is the first to show
  a change, because a poll replaces the last-known payload without an event (`ListenerCurrentIff`, `SwallowedChange`).
- **The Unity JSON reader** takes more than RFC 8259 allows: any letters after the first of a keyword, any
  character as the quote before a name, as a colon or as the closer of a non-empty list, and tokens the
  number parser likes (`ReaderExact`).
- **The Unity JSON writer** emits control characters other than tab, line feed and carriage return raw,
  against section 7 of RFC 8259; its own reader takes them back (`EscapeStandard`, `RawControlWritten`, `RoundTrip`).

## Model

| member | source | states |
|---|---|---|
| Lines.SplitJoin | sdk/rust/gameflow/src/transport/sidecar.rs:248-258 | Splitting a byte stream into LF-terminated pieces and a remainder loses nothing, and no piece or remainder holds an LF. |
| Lines.SplitUnique | sdk/rust/gameflow/src/transport/sidecar.rs:248-258 | There is only one such split, so the reference is not a choice. |
| Lines.SplitAppend | sdk/rust/gameflow/src/transport/sidecar.rs:248-258 | Framing is incremental: of the bytes already framed only the unterminated remainder matters for what follows. |
| Lines.StripCrMeaning | sdk/unreal/GameFlow/Source/GameFlowCore/Private/GameFlow/GfChunkedNdjson.cpp:22-44 | One trailing CR goes, and nothing else of a line. |
| Lines.LinesRead | sdk/rust/gameflow/src/transport/sidecar.rs:248-258 | Lines written with any mixture of CR LF and LF are read back as they were, with the remainder after them. |
| ChunkedNdjson.ParseHexSize | sdk/unreal/GameFlow/Source/GameFlowCore/Private/GameFlow/GfChunkedNdjson.cpp:5-20 | -1 without a digit, otherwise the value of the leading hex digits truncated to 32 bits, although the code truncates at every digit. |
| ChunkedCoding.DigitTable | sdk/unreal/GameFlow/Source/GameFlowCore/Private/GameFlow/GfChunkedNdjson.cpp:12-15 | The i-th of the numerals 0 to 9, a to f, in either case, is read as i. |
| ChunkedCoding.NumeralIff | sdk/unreal/GameFlow/Source/GameFlowCore/Private/GameFlow/GfChunkedNdjson.cpp:12-15 | A character is taken for a digit if and only if it is one of these numerals. |
| ChunkedCoding.SpellingRead | sdk/unreal/GameFlow/Source/GameFlowCore/Private/GameFlow/GfChunkedNdjson.cpp:5-20 | Every spelling of a number in base sixteen, in any case and with leading zeros, is read as that number. |
| ChunkedCoding.ReadingSpells | sdk/unreal/GameFlow/Source/GameFlowCore/Private/GameFlow/GfChunkedNdjson.cpp:5-20 | And whatever is read as a number is a spelling of it. |
| ChunkedNdjson.RunAppend | sdk/unreal/GameFlow/Source/GameFlowCore/Private/GameFlow/GfChunkedNdjson.cpp:55-117 | Where the wire is cut makes no difference to the chunk layer, for any bytes. |
| ChunkedNdjson.Decoder.EmitLine | sdk/unreal/GameFlow/Source/GameFlowCore/Private/GameFlow/GfChunkedNdjson.cpp:22-44 | The line up to the LF without one trailing CR; the buffer keeps what follows the LF. |
| ChunkedNdjson.Decoder.PushBodyByte | sdk/unreal/GameFlow/Source/GameFlowCore/Private/GameFlow/GfChunkedNdjson.cpp:46-53 | One byte completes exactly the line that an LF ends and keeps the buffer LF-free. |
| ChunkedNdjson.Decoder.Feed | sdk/unreal/GameFlow/Source/GameFlowCore/Private/GameFlow/GfChunkedNdjson.cpp:55-117 | Over any bytes: the new chunk state, the lines of old buffer plus body bytes found, and the LF-free remainder; states carry over between calls. |
| ChunkedCoding.HeaderMeaning | sdk/unreal/GameFlow/Source/GameFlowCore/Private/GameFlow/GfChunkedNdjson.cpp:72-94 | What a size line that spells v does, for every v, with blanks before it, anything that is no numeral after it, and CR LF or LF at its end: the body ends when the low 32 bits of v are zero or have the sign bit set, otherwise they are the chunk length. |
| ChunkedCoding.HeaderFaithful | sdk/unreal/GameFlow/Source/GameFlowCore/Private/GameFlow/GfChunkedNdjson.cpp:5-20 | A size line means what section 7.1 of RFC 9112 says if and only if its value is below 2^31. |
| ChunkedCoding.OversizeEndsBody | sdk/unreal/GameFlow/Source/GameFlowCore/Private/GameFlow/GfChunkedNdjson.cpp:5-20 | The spelling 80000000 announces 2^31 bytes and ends the body instead. |
| ChunkedCoding.NoNumberEndsBody | sdk/unreal/GameFlow/Source/GameFlowCore/Private/GameFlow/GfChunkedNdjson.cpp:72-94 | A line that starts with no numeral, blanks aside, ends the body. |
| ChunkedCoding.ChunkLayerInverts | sdk/unreal/GameFlow/Source/GameFlowCore/Private/GameFlow/GfChunkedNdjson.cpp:55-117 | For every chunk encoding (any spelling of the sizes, blanks, extensions, CR LF or LF, trailing bytes) and every prefix of it, the body bytes produced are exactly those contained in the prefix. |
| ChunkedCoding.DecodeSlices | sdk/unreal/GameFlow/Source/GameFlowCore/Private/GameFlow/GfChunkedNdjson.cpp:55-117 | A running decoder fed any slices of any prefix of an encoding emits the lines of the body so far and buffers its LF-free remainder. |
| ChunkedCoding.CompleteEncoding | sdk/unreal/GameFlow/Source/GameFlowCore/Private/GameFlow/GfChunkedNdjson.cpp:112-115 | Bytes after the closing chunk change nothing. |
| WatchConnection.HeadersStable | sdk/unreal/GameFlow/Source/GameFlowCore/Private/GameFlow/WatchConnection.cpp:175-198 | Later bytes never move the end of the headers. |
| WatchConnection.BodyFollowsBlankLine | sdk/unreal/GameFlow/Source/GameFlowCore/Private/GameFlow/WatchConnection.cpp:175-198 | There is a body if and only if the bytes CR LF CR LF stand somewhere, and it is what follows the first of them. |
| WatchConnection.HeadersEndInSlice | sdk/unreal/GameFlow/Source/GameFlowCore/Private/GameFlow/WatchConnection.cpp:186-190 | When the terminator is found, the body starts inside the newest slice: the clamp of the offset to zero never acts and no body byte is skipped. |
| WatchConnection.Connection.TakeHeaders | sdk/unreal/GameFlow/Source/GameFlowCore/Private/GameFlow/WatchConnection.cpp:175-198 | Header bytes are accumulated across slices; the offset returned is where the bytes after the first CR LF CR LF start in this slice. |
| WatchConnection.Connection.ConsumeBody | sdk/unreal/GameFlow/Source/GameFlowCore/Private/GameFlow/WatchConnection.cpp:232-275 | Delivers, in order, the frames of the lines completed, up to and including the first whose callback destroys the connection. |
| WatchConnection.Connection.OnData | sdk/unreal/GameFlow/Source/GameFlowCore/Private/GameFlow/WatchConnection.cpp:166-213 | One successful read keeps the whole state a function of the bytes received. |
| WatchConnection.Connection.HandleClosed | sdk/unreal/GameFlow/Source/GameFlowCore/Private/GameFlow/WatchConnection.cpp:277-293 | The close callback runs at most once and the ticker is gone. |
| WatchConnection.Connection.DrainReadable | sdk/unreal/GameFlow/Source/GameFlowCore/Private/GameFlow/WatchConnection.cpp:154-230 | Which answers of Recv keep the loop reading, none on a closed socket; that deliveries stay the frames of all bytes received; that a failed read closes; and that Recv is called on a null socket if and only if some answer reached with the socket open fills the 4096-byte buffer and completes a frame with a closing callback and none with a destroying one. |
| WatchConnection.ReadOnIff | sdk/unreal/GameFlow/Source/GameFlowCore/Private/GameFlow/WatchConnection.cpp:154-230 | The answers that keep one tick reading are reads, of any size until CR LF CR LF has come, and of 4096 bytes from then on. |
| WatchConnection.FramesExtend | sdk/unreal/GameFlow/Source/GameFlowCore/Private/GameFlow/WatchConnection.cpp:154-230 | More bytes only add frames at the end. |
| WatchConnection.ReadEndMeaning | sdk/unreal/GameFlow/Source/GameFlowCore/Private/GameFlow/WatchConnection.cpp:78-230 | The answers read are those up to the first failed read or the first that completes a frame whose callback closes or destroys. |
| WatchConnection.DeliverAll | sdk/unreal/GameFlow/Source/GameFlowCore/Private/GameFlow/WatchConnection.cpp:78-230 | A connection read to its end over any answers and any callbacks: it is read up to the first failed read or the first read that completes a frame whose callback closes or destroys, it delivers the frames of the bytes read so far up to the first destroying callback, and only a failed read calls back. |
| CutDependence.CutIndependentIff | sdk/unreal/GameFlow/Source/GameFlowCore/Private/GameFlow/WatchConnection.cpp:154-230 | For any response, however badly chunked, and any callbacks: no two ways of cutting it deliver differently if and only if no further frame comes within reach of a read that completes the first frame whose callback closes without destroying. |
| CutDependence.QuietCuts | sdk/unreal/GameFlow/Source/GameFlowCore/Private/GameFlow/WatchConnection.cpp:166-213 | In particular the cuts never show while no callback closes without destroying. |
| CutDependence.OneByteOneFrame | sdk/unreal/GameFlow/Source/GameFlowCore/Private/GameFlow/GfChunkedNdjson.cpp:46-53 | One more byte of a response completes at most one frame. |
| CutDependence.CutsShow | sdk/unreal/GameFlow/Source/GameFlowCore/Private/GameFlow/GfWatcher.cpp:60-89 | A response of two frames and a closing callback: the cuts do show. |
| CutDependence.MeetNullSocket | sdk/unreal/GameFlow/Source/GameFlowCore/Private/GameFlow/WatchConnection.cpp:169-173 | A running connection that meets the null socket, after one read of 4096 bytes. |
| RustFraming.DrainLines | sdk/rust/gameflow/src/transport/sidecar.rs:248-258 | The draining loop ends with an LF-free buffer after handing over every non-empty line once. |
| RustFraming.WatchStream | sdk/rust/gameflow/src/transport/sidecar.rs:236-263 | For any network split of the body the lines handed over are its non-empty lines, and only an LF-free remainder is kept. |
| RustFraming.FramesAreNonEmptyLines | sdk/unreal/GameFlow/Source/GameFlowCore/Private/GameFlow/WatchConnection.cpp:242-250 | The lines Unreal looks at are exactly the non-empty lines. |
| RustFraming.ClientsAgree | sdk/rust/gameflow/src/transport/sidecar.rs:236-263 | Unreal on any chunk encoding of a body behind any headers sees the lines that Rust sees on any network split of the same body. |
| RustFraming.SinksAgreeIff | sdk/rust/gameflow/src/transport/sidecar.rs:267-286 | Each client with its own JSON library and its own order of looking: the objects reported are the same if and only if both judge every non-empty line of the body alike; with equal libraries, if and only if no line carries both an object and an error. |
| RustFraming.KeptAlikeIff | sdk/unreal/GameFlow/Source/GameFlowCore/Private/GameFlow/WatchConnection.cpp:242-274 | Two ways of judging lines keep the same frames if and only if they agree on every non-empty line. |
| CutDependence.SinksDiffer | sdk/rust/gameflow/src/transport/sidecar.rs:276-285 | A body of two lines that carry both: Unreal reports two objects, Rust none. |
| RustFraming.RunBoth | sdk/unreal/GameFlow/Source/GameFlowCore/Private/GameFlow/WatchConnection.cpp:154-275 | The agreement on two running clients. |
| JsonReader.Parse | sdk/unity/Packages/gg.gameflow.gameserver/Runtime/Core/Json/Json.cs:15-22 | The cursor-driven reader computes the recursive definition, trailing content and running off the end included. |
| JsonReader.ParseObject | sdk/unity/Packages/gg.gameflow.gameserver/Runtime/Core/Json/Json.cs:40-59 | The object loop, for any text after the brace, complete or not. |
| JsonReader.ParseArray | sdk/unity/Packages/gg.gameflow.gameserver/Runtime/Core/Json/Json.cs:61-76 | The array loop, likewise. |
| JsonReader.ParseString | sdk/unity/Packages/gg.gameflow.gameserver/Runtime/Core/Json/Json.cs:78-109 | The literal loop, with every escape and every way to fail. |
| JsonReader.ParseNumber | sdk/unity/Packages/gg.gameflow.gameserver/Runtime/Core/Json/Json.cs:111-116 | The longest run of number characters is the token given to the library. |
| JsonGrammar.ReadsDoc | sdk/unity/Packages/gg.gameflow.gameserver/Runtime/Core/Json/Json.cs:24-116 | A rendered document, standard or one of the others the reader takes, is read at any position of any text as its meaning and the cursor stops right behind it; no index runs past the end. |
| JsonGrammar.ReadsItems | sdk/unity/Packages/gg.gameflow.gameserver/Runtime/Core/Json/Json.cs:61-76 | The same for the elements of an array, however separated by whitespace. |
| JsonGrammar.ReadsMembers | sdk/unity/Packages/gg.gameflow.gameserver/Runtime/Core/Json/Json.cs:40-59 | The same for members; the last of equal names wins. |
| JsonGrammar.ReaderCorrect | sdk/unity/Packages/gg.gameflow.gameserver/Runtime/Core/Json/Json.cs:15-22 | For every value and every rendering allowed by sections 2 to 7 of RFC 8259, with whitespace around, Parse returns that value and ends at the end of the text; escapes mean what the table of section 7 says. |
| JsonGrammar.CodeValue | sdk/unity/Packages/gg.gameflow.gameserver/Runtime/Core/Json/Json.cs:99-102 | A u escape stands for the code unit that its four digits spell. |
| JsonGrammar.WsIff | sdk/unity/Packages/gg.gameflow.gameserver/Runtime/Core/Json/Json.cs:118-121 | The characters skipped are exactly the four of section 2. |
| JsonLanguage.ReaderExact | sdk/unity/Packages/gg.gameflow.gameserver/Runtime/Core/Json/Json.cs:15-121 | The texts that Parse takes are exactly the renderings of trees with whitespace around, and the value is the meaning of the tree. The trees have what the standard allows and what the reader does not look at: the letters of a keyword after the first, the quote before a name, the colon, the closer of a non-empty list. |
| JsonLanguage.FailureHasCause | sdk/unity/Packages/gg.gameflow.gameserver/Runtime/Core/Json/Json.cs:15-121 | A failing text: an argument error means that the text ends inside the digits of a u escape, a format error that the library refuses a number token or a u escape in it, or that something follows the value. |
| JsonLanguage.TrailingContent | sdk/unity/Packages/gg.gameflow.gameserver/Runtime/Core/Json/Json.cs:19-20 | Anything but whitespace after a document is a format error. |
| JsonLanguage.StrayCharacter | sdk/unity/Packages/gg.gameflow.gameserver/Runtime/Core/Json/Json.cs:24-38 | So is a text that starts with a character no value starts with. |
| JsonWriter.Escape | sdk/unity/Packages/gg.gameflow.gameserver/Runtime/Core/Json/Json.cs:145-161 | The text written for a string is a sequence of pieces of the string grammar. |
| JsonWriter.EscapeValue | sdk/unity/Packages/gg.gameflow.gameserver/Runtime/Core/Json/Json.cs:145-161 | Those pieces stand for the original text: escaping loses nothing. |
| JsonWriter.EscapeStandard | sdk/unity/Packages/gg.gameflow.gameserver/Runtime/Core/Json/Json.cs:145-161 | The output can be read as a string of section 7 of RFC 8259 if and only if the text has no control character other than tab, line feed and carriage return. |
| JsonWriter.RawControlWritten | sdk/unity/Packages/gg.gameflow.gameserver/Runtime/Core/Json/Json.cs:145-161 | The character with code 1 is written into a string that is not legal JSON. |
| JsonWriter.Obj | sdk/unity/Packages/gg.gameflow.gameserver/Runtime/Core/Json/Json.cs:133-143 | The text of a flat object, field by field. |
| JsonWriter.WrittenRenders | sdk/unity/Packages/gg.gameflow.gameserver/Runtime/Core/Json/Json.cs:133-143 | That text is the rendering of an object document. |
| JsonWriter.RoundTrip | sdk/unity/Packages/gg.gameflow.gameserver/Runtime/Core/Json/Json.cs:133-161 | Reading what was written gives the map obtained by inserting the fields in order, for all texts including raw control characters, quotes and backslashes, whatever the number parsers do. |
| JsonWriter.WriteThenParse | sdk/unity/Packages/gg.gameflow.gameserver/Runtime/Core/Json/Json.cs:15-161 | The round trip on running code. |
| RustWatch.SingleStream | sdk/rust/gameflow/src/watch.rs:143-161 | Over all interleavings at most one uncancelled stream task exists, its token is the one in the control state, and every other token ever created, spawned or not yet, is cancelled. |
| RustWatch.StopIsFinal | sdk/rust/gameflow/src/watch.rs:130-139 | After the first section of stop every token is cancelled and none is ever created again. |
| RustWatch.NoFrameLostOrDuplicated | sdk/rust/gameflow/src/watch.rs:103-127 | In lock order a listener is committed the latest frame at its registration and every frame dispatched until its removal, each once. |
| RustWatch.ExpectedAppend | sdk/rust/gameflow/src/watch.rs:203-218 | How one more lock section changes what a listener must receive. |
| RustServed.ServedIff | sdk/rust/gameflow/src/watch.rs:119-161 | Over every run, until a stop: whoever has been through ensure_stream keeps, at every point, a token that is not cancelled and whose task runs or is about to be spawned, if and only if no closing subscriber closes the stream while someone is ensured, no listener panics on the stream task while someone is ensured, and ensure_stream never finds the token of a task that panicked. |
| RustServed.ServedWhenRegisterWaits | sdk/rust/gameflow/src/watch.rs:103-126 | What clients can do: if no listener is registered while a closing subscriber stands between its two sections, and none panics on the stream task, nobody ever loses a running stream. |
| RustServed.ServedStep | sdk/rust/gameflow/src/watch.rs:119-218 | Exactly these three kinds of steps take a running stream away. |
| RustServed.ListenerWithoutStream | sdk/rust/gameflow/src/watch.rs:119-126 | A run after which every call has returned, a listener is registered and no stream is up. |
| RustServed.PanickingListener | sdk/rust/gameflow/src/watch.rs:203-218 | A run in which a listener panics: the token stays, its task is gone, and the listener has no stream. |
| RustCalls.NoIdleStream | sdk/rust/gameflow/src/watch.rs:119-126 | At every point of every run, a token that is held has a registered listener or a thread about to cancel it; once nobody is registered and nobody is closing, every stream ever started has been told to end. |
| RustCalls.HeldListens | sdk/rust/gameflow/src/watch.rs:103-127 | While the watcher runs, a subscription that is held has its listener registered, and no two share one. |
| RustCalls.EventsAreSteps | sdk/rust/gameflow/src/watch.rs:103-218 | The lock order is what threads and tasks did: no frame handed over, no registration and no removal is missing from it. |
| RustCalls.SubscribeAlone | sdk/rust/gameflow/src/watch.rs:103-154 | A subscribe with nobody in between, from any state: who is registered, what is replayed, and whether a stream is started. |
| RustCalls.DropAlone | sdk/rust/gameflow/src/watch.rs:119-161 | A dropped subscription likewise: its listener goes, and the stream is told to end if and only if nobody is left. |
| RustCalls.StopAlone | sdk/rust/gameflow/src/watch.rs:130-139 | A stop likewise: no listener and no uncancelled token are left. |
| RustCalls.LateFrame | sdk/rust/gameflow/src/watch.rs:163-218 | A run in which a task that was told to end hands a frame to a listener that came later. |
| RustWatcher.Watcher.Register | sdk/rust/gameflow/src/watch.rs:107-111 | Registration and reading the replay value are one step in place. |
| RustWatcher.Watcher.EnsureStream | sdk/rust/gameflow/src/watch.rs:143-154 | The control section creates a token only when not stopped and none is held. |
| RustWatcher.Watcher.Unregister | sdk/rust/gameflow/src/watch.rs:119-126 | The dispatch section of a drop; whether the stream must be closed afterwards. |
| RustWatcher.Watcher.CloseStream | sdk/rust/gameflow/src/watch.rs:156-161 | Takes and cancels whatever token is there, even another subscriber's. |
| RustWatcher.Watcher.StopControl | sdk/rust/gameflow/src/watch.rs:131-137 | The first section of stop. |
| RustWatcher.Watcher.DispatchFrame | sdk/rust/gameflow/src/watch.rs:203-218 | Recording the frame and taking the snapshot are one step in place. |
| RustWatcher.Watcher.Drive | sdk/rust/gameflow/src/watch.rs:103-218 | The object under any interleaving is the state machine of RustWatch. |
| RustWatcher.AnyInterleaving | sdk/rust/gameflow/src/watch.rs:103-218 | So of the object: at most one uncancelled task, and to every listener ever registered exactly the frames due to it. |
| UnityWatch.SingleLoop | sdk/unity/Packages/gg.gameflow.gameserver/Runtime/Core/Transport/Watcher.cs:31-69 | Over all interleavings at most one RunLoop runs, a token source exists if and only if there are subscribers, and all older tokens are cancelled. |
| UnityWatch.StreamsDoNotInterleave | sdk/unity/Packages/gg.gameflow.gameserver/Runtime/Core/Transport/Watcher.cs:39-51 | All frames of one loop are delivered before any of a later one. |
| UnityWatch.FlowsIff | sdk/unity/Packages/gg.gameflow.gameserver/Runtime/Core/Transport/Watcher.cs:71-95 | While someone is subscribed, some continuation that keeps a subscriber delivers a frame if and only if the transport has not aborted the newest loop; after an abort nothing is delivered and no loop is created, whoever comes and goes, for as long as there are subscribers. |
| UnityWatch.AbortedSubscriber | sdk/unity/Packages/gg.gameflow.gameserver/Runtime/Core/Transport/Watcher.cs:83-83 | One cancellation raised by the transport itself, and the only subscriber waits in vain. |
| UnityWatch.SomeLoopCanMove | sdk/unity/Packages/gg.gameflow.gameserver/Runtime/Core/Transport/Watcher.cs:39-51 | A waiting loop is never stuck: it or an earlier loop can move, and every earlier running loop has been told to finish. |
| UnityWatch.SubscribersAreOpenHandles | sdk/unity/Packages/gg.gameflow.gameserver/Runtime/Core/Transport/Watcher.cs:56-63 | Until Dispose the subscribers are, as a multiset, the callbacks of the handles still open, however often handles are disposed. |
| UnityWatch.WithoutSplit | sdk/unity/Packages/gg.gameflow.gameserver/Runtime/Core/Transport/Watcher.cs:56-63 | Unsubscribing takes out the first equal callback and keeps the others in order. |
| UnityWatch.DeliveredToSubscribers | sdk/unity/Packages/gg.gameflow.gameserver/Runtime/Core/Transport/Watcher.cs:97-110 | Over every run the deliveries are the frames of running loops, each to all who were subscribed at that moment. |
| UnityWatch.DeliveredToOpenHandles | sdk/unity/Packages/gg.gameflow.gameserver/Runtime/Core/Transport/Watcher.cs:97-110 | So until Dispose a frame goes to the callbacks of the handles open at that moment, as a multiset. |
| UnityWatch.LateFrame | sdk/unity/Packages/gg.gameflow.gameserver/Runtime/Core/Transport/Watcher.cs:71-110 | A run in which a cancelled loop delivers to a callback subscribed after it. |
| UnityWatch.SubscribersAfterDisposeIff | sdk/unity/Packages/gg.gameflow.gameserver/Runtime/Core/Transport/Watcher.cs:112-136 | After a Dispose the subscribers stay the callbacks of the handles opened since, at every point, if and only if no open handle from before is disposed while its callback is subscribed again. |
| UnityWatch.StaleHandleAfterDispose | sdk/unity/Packages/gg.gameflow.gameserver/Runtime/Core/Transport/Watcher.cs:112-119 | A run in which an old handle takes away a new subscription. |
| UnityWatcher.Watcher.Subscribe | sdk/unity/Packages/gg.gameflow.gameserver/Runtime/Core/Transport/Watcher.cs:31-54 | The lock section in place; a new task is chained behind the current one only for the first subscriber. |
| UnityWatcher.Watcher.Unsubscribe | sdk/unity/Packages/gg.gameflow.gameserver/Runtime/Core/Transport/Watcher.cs:56-63 | Removes one equal callback and stops the stream when none is left. |
| UnityWatcher.Watcher.DisposeHandle | sdk/unity/Packages/gg.gameflow.gameserver/Runtime/Core/Transport/Watcher.cs:133-136 | Only the first disposal of a handle unsubscribes. |
| UnityWatcher.Watcher.Deliver | sdk/unity/Packages/gg.gameflow.gameserver/Runtime/Core/Transport/Watcher.cs:97-110 | Recording the frame and taking the snapshot are one step. |
| UnityWatcher.Watcher.Dispose | sdk/unity/Packages/gg.gameflow.gameserver/Runtime/Core/Transport/Watcher.cs:112-119 | Clears the subscribers and stops the stream. |
| UnityWatcher.Watcher.Drive | sdk/unity/Packages/gg.gameflow.gameserver/Runtime/Core/Transport/Watcher.cs:31-119 | The object under any interleaving is the state machine of UnityWatch. |
| UnityWatcher.AnyInterleaving | sdk/unity/Packages/gg.gameflow.gameserver/Runtime/Core/Transport/Watcher.cs:31-119 | So the single-loop result holds of the object. |
| Lifecycle.LifecycleSafety | sdk/rust/gameflow/src/gameflow.rs:322-386 | For any number of concurrent callers: one claim, one shutdown request, sent only after the health loop and the watch were stopped, and at most one start of the health loop. |
| Lifecycle.LifecycleMonotone | sdk/rust/gameflow/src/gameflow.rs:334-379 | The state never goes back and no ready wins its compare-and-swap after the claim. |
| LifecycleAnswers.ReadyIsEarned | sdk/rust/gameflow/src/gameflow.rs:322-349 | For any number of callers: the server becomes ready only after a request to become ready succeeded; who wins that race starts the health loop exactly once; a ready is told Done only if somebody won; NotConnected is told only from the claim on, and shutdown always returns Done. |
| LifecycleAnswers.FailuresAreTold | sdk/rust/gameflow/src/gameflow.rs:322-398 | In every state that can be reached, a step tells somebody RequestFailed if and only if it is the failure of a request other than shutdown, and tells the sender; a success is told at once, except to ready and shutdown. |
| LifecycleAnswers.ReadyAlone | sdk/rust/gameflow/src/gameflow.rs:322-349 | What ready does from every state when nobody interferes, for a request that succeeds or fails: state, health loop, requests and answer. |
| LifecycleAnswers.ShutdownAlone | sdk/rust/gameflow/src/gameflow.rs:354-386 | What shutdown does likewise; the outcome of its request makes no difference. |
| LifecycleAnswers.CallAlone | sdk/rust/gameflow/src/transport/mod.rs:69-119 | What any other call does likewise, with or without the test at its entry. |
| LifecycleAnswers.ClaimStopsTested | sdk/rust/gameflow/src/gameflow.rs:468-473 | From the claim on, a caller not past its test of the state never reaches the runtime again, except by calls that make no test. |
| LifecycleAnswers.ReadyDuringShutdown | sdk/rust/gameflow/src/gameflow.rs:330-346 | A run in which a ready that was under way still sends its request after the claim, and is told NotConnected. |
| LifecycleAnswers.ShutdownStartsOver | sdk/rust/gameflow/src/gameflow.rs:356-373 | A shutdown that loses its swap to a ready starts over and claims with its next two steps. |
| LifecycleAnswers.ReadyOnce | sdk/rust/gameflow/src/gameflow.rs:324-330 | While the server stays ready, a caller that has not loaded the state yet sends no request to become ready. |
| Lifecycle.GuardSound | sdk/rust/gameflow/src/transport/mod.rs:69-119 | Once SHUTDOWN is stored, a caller whose guard step is still to come (a scheduled health ping, say) adds no request, and all its replies except to shutdown are NOT_CONNECTED. |
| Lifecycle.ReturnSilencesIff | sdk/rust/gameflow/src/gameflow.rs:351-386 | After a shutdown has returned to anyone, an idle caller can no longer reach the runtime, by any continuation, if and only if no claimed shutdown is still under way. |
| Lifecycle.SecondShutdownReturnsEarly | sdk/rust/gameflow/src/gameflow.rs:354-361 | A run in which a second shutdown has returned and a players call still reaches the runtime. |
| PlayerTracking.AgreementIff | sdk/rust/gameflow/src/players.rs:32-66 | From agreement, one call breaks it if and only if it would change the runtime list and its answer, or the read after it, does not arrive; then it reports a failure. |
| PlayerTracking.AgreementHistoryIff | sdk/rust/gameflow/src/players.rs:32-94 | Over every history, cache and list agree at every point if and only if no call loses the answer to a change. |
| PlayerTracking.LostPlayer | sdk/rust/gameflow/src/transport/sidecar.rs:171-175 | A player who connects while the answer or the re-read gets lost is in the list and not in the cache. |
| PlayerTracking.FullWithoutCode | sdk/rust/gameflow/src/transport/sidecar.rs:184-199 | The runtime's own words are recognised as a full list even without the gRPC code. |
| PlayerTracking.SuccessRestores | sdk/rust/gameflow/src/transport/sidecar.rs:171-175 | A success that returned a list restores agreement whatever the cache held. |
| PlayerTracking.SuccessfulHistoriesAgree | sdk/rust/gameflow/src/players.rs:32-94 | Over every history of successful calls the cache equals the runtime list, in every echo mode. |
| PlayerTracking.AlwaysSound | tools/conformance/fake-sidecar.ts:127-174 | Over every history, failures included, list and cache hold no duplicate and never exceed a non-negative capacity. |
| PlayerTracking.EchoIrrelevant | tools/conformance/fake-sidecar.ts:164-174 | What mutations echo is never visible: replies and caches are the same in every mode. |
| PlayerTracking.ObservablyEqualIff | sdk/rust/gameflow/src/transport/local.rs:64-82 | Local mode cannot be told from the runtime by any sequence of calls if and only if its capacity is positive and the runtime holds the same list, or its capacity is zero and the runtime has none; unlimited local mode always can. |
| PlayerTracking.UnlimitedIsTold | sdk/rust/gameflow/src/transport/local.rs:68-70 | Unlimited local mode differs from every runtime list. |
| PlayerTracking.UnlimitedDiffers | sdk/rust/gameflow/src/transport/local.rs:68-70 | And from the list with the same capacity and players: it accepts a connection that the runtime refuses. |
| PlayerOutcomes.RemovedSplit | sdk/rust/gameflow/src/transport/local.rs:199-215 | Removal takes out the named player and keeps all others in order. |
| PlayerOutcomes.ConnectOutcome | sdk/rust/gameflow/src/players.rs:32-51 | Over the runtime, for every list and cache: which of the four answers connect gives, and list and cache afterwards. |
| PlayerOutcomes.DisconnectOutcome | sdk/rust/gameflow/src/players.rs:55-66 | A player in the list is removed, the others stay in order, and the cache is the new list. |
| PlayerOutcomes.DisconnectAbsent | sdk/rust/gameflow/src/players.rs:55-66 | A player in no list: the answer is no, or that tracking is disabled, and nothing changes. |
| PlayerOutcomes.RefreshOutcome | sdk/rust/gameflow/src/players.rs:90-94 | A refresh puts list and capacity into the cache. |
| PlayerOutcomes.LocalConnectOutcome | sdk/rust/gameflow/src/transport/local.rs:174-197 | The four answers of local mode, where capacity 0 disables tracking and a negative one is no limit. |
| PlayerOutcomes.LocalDisconnectOutcome | sdk/rust/gameflow/src/transport/local.rs:199-215 | Removal in local mode, the others in order. |
| PlayerOutcomes.FoundIff | sdk/rust/gameflow/src/players.rs:59-64 | Whatever fails and whatever the cache holds, a disconnect that succeeds says yes if and only if the player was in the list, and has changed nothing if it says no. |
| PlayerOutcomes.JoinAndLeave | sdk/rust/gameflow/src/players.rs:32-66 | A connect that succeeds, and the disconnect of the same player, over either transport: the list is what it was, order included, and the cache shows it. |
| PlayerOutcomes.FirstRequestFails | sdk/rust/gameflow/src/transport/sidecar.rs:59-77 | A refused or undelivered request fails the call with its own error and changes nothing. |
| PlayerOutcomes.AnswerFails | sdk/rust/gameflow/src/transport/sidecar.rs:59-77 | A lost answer gives the same error although the list has changed as without the fault. |
| PlayerOutcomes.RereadFails | sdk/rust/gameflow/src/transport/sidecar.rs:170-174 | A change whose re-read fails: the error of the read, the list changed, the cache not. |
| PlayerOutcomes.ContainsIff | sdk/rust/gameflow/src/transport/sidecar.rs:289-292 | The search for a word finds it exactly where it stands, in any case. |
| PlayerOutcomes.RefusalMeaning | sdk/rust/gameflow/src/transport/sidecar.rs:183-198 | A refused add means a full list if and only if it has code 11 or one of the two words in its message. |
| PlayerObjects.LocalTransport.AddPlayer | sdk/rust/gameflow/src/transport/local.rs:174-197 | The in-memory runtime in place; a success emits one update with the list it returned. |
| PlayerObjects.LocalTransport.RemovePlayer | sdk/rust/gameflow/src/transport/local.rs:199-215 | Likewise; the first equal id goes, and only then is an update emitted. |
| PlayerObjects.FakeRuntime.HandleList | tools/conformance/fake-sidecar.ts:127-162 | The fake runtime in place. |
| PlayerObjects.FakeRuntime.Send | sdk/rust/gameflow/src/transport/sidecar.rs:59-77 | One request with its failures: refused, unreachable, or processed without an answer. |
| PlayerObjects.SidecarTransport.AddPlayer | sdk/rust/gameflow/src/transport/sidecar.rs:158-201 | Status mapping and the re-read after a success. |
| PlayerObjects.SidecarTransport.RemovePlayer | sdk/rust/gameflow/src/transport/sidecar.rs:203-218 | Likewise for removal. |
| PlayerObjects.SidecarTransport.GetPlayerList | sdk/rust/gameflow/src/transport/sidecar.rs:139-156 | A 404 is the disabled list. |
| PlayerObjects.Players.Connect | sdk/rust/gameflow/src/players.rs:32-51 | The cache update and error enrichment in place, over either transport. |
| PlayerObjects.Players.Disconnect | sdk/rust/gameflow/src/players.rs:55-66 | Likewise, including the check of the cache before any request. |
| PlayerObjects.Players.Refresh | sdk/rust/gameflow/src/players.rs:90-94 | Likewise. |
| PlayerObjects.Players.DoAll | sdk/rust/gameflow/src/players.rs:32-94 | A history of calls on the object gives the replies and caches of the function. |
| PlayerObjects.SideBySide | sdk/rust/gameflow/src/transport/local.rs:174-215 | Two running clients, one in local mode and one over the REST runtime with the same list, give the same replies and caches for every history. |
| PlayerObjects.CacheAfter | tools/conformance/fake-sidecar.ts:127-174 | A running client over the REST runtime: if all replies are successes its cache is the runtime list, and from a sound list both stay sound whatever fails. |
| UnrealWatcher.Watcher.TeardownConnection | sdk/unreal/GameFlow/Source/GameFlowCore/Private/GameFlow/GfWatcher.cpp:60-94 | Destroys at once outside a callback, otherwise closes and leaves exactly one teardown ticker. |
| UnrealWatcher.Watcher.Close | sdk/unreal/GameFlow/Source/GameFlowCore/Private/GameFlow/GfWatcher.cpp:43-49 | What closing leaves behind inside and outside a callback. |
| UnrealWatcher.Watcher.Subscribe | sdk/unreal/GameFlow/Source/GameFlowCore/Private/GameFlow/GfWatcher.cpp:18-32 | Opens only for the first subscriber and only when no connection object is held; the new connection ticks only if it got a socket. |
| UnrealWatcher.Watcher.Unsubscribe | sdk/unreal/GameFlow/Source/GameFlowCore/Private/GameFlow/GfWatcher.cpp:34-41 | Closes when nobody is left. |
| UnrealWatcher.DroppedSplit | sdk/unreal/GameFlow/Source/GameFlowCore/Private/GameFlow/GfWatcher.cpp:34-41 | The subscriber with that handle goes, all others are kept in order. |
| UnrealWatcher.FrameInOrder | sdk/unreal/GameFlow/Source/GameFlowCore/Private/GameFlow/GfWatcher.cpp:103-127 | A frame runs the callbacks of the subscribers at its entry, in order, whatever the earlier ones do. |
| UnrealWatcher.ActMeaning | sdk/unreal/GameFlow/Source/GameFlowCore/Private/GameFlow/GfWatcher.cpp:18-49 | What each act of a callback does to subscribers and stream, a nested frame included. |
| UnrealWatcher.Watcher.OnFrame | sdk/unreal/GameFlow/Source/GameFlowCore/Private/GameFlow/GfWatcher.cpp:103-127 | For any nesting of callbacks: the targets are the subscribers at entry, the connection is not destroyed, the depth returns, and the state is the one the callbacks' acts determine. |
| UnrealWatcher.Watcher.OnClosed | sdk/unreal/GameFlow/Source/GameFlowCore/Private/GameFlow/GfWatcher.cpp:129-166 | A reconnect ticker if someone is subscribed, a teardown ticker otherwise, never both. |
| UnrealWatcher.Watcher.FireTicker | sdk/unreal/GameFlow/Source/GameFlowCore/Private/GameFlow/GfWatcher.cpp:76-84 | A ticker destroys the old connection on a fresh stack, reopens only for a reconnect with subscribers, and is gone. |
| UnrealWatcher.Watcher.DoReconnect | sdk/unreal/GameFlow/Source/GameFlowCore/Private/GameFlow/GfWatcher.cpp:168-176 | Destroys the old connection and opens a new one if someone is subscribed. |
| UnrealWatcher.Watcher.Drive | sdk/unreal/GameFlow/Source/GameFlowCore/Private/GameFlow/GfWatcher.cpp:18-185 | Every history keeps the invariant: registered tickers are exactly the valid handles, and no connection ended under a callback. Subscribers that are stuck stay stuck, and no connection is opened, for as long as there are any. |
| UnrealWatcher.Watcher.Handle | sdk/unreal/GameFlow/Source/GameFlowCore/Private/GameFlow/GfWatcher.cpp:18-185 | One event: stuck subscribers stay stuck; others become so if and only if the event is a close, a frame one of whose callbacks closes, or a retry that gets no socket. |
| UnrealWatcher.Watcher.Retry | sdk/unreal/GameFlow/Source/GameFlowCore/Private/GameFlow/GfWatcher.cpp:129-176 | When the peer closes and the pending reconnect fires, a new connection is opened if and only if someone is subscribed and not stuck. |
| UnrealWatcher.RetryAfter | sdk/unreal/GameFlow/Source/GameFlowCore/Private/GameFlow/GfWatcher.cpp:129-176 | The same after every history from the start. |
| UnrealWatcher.Watcher.Destroy | sdk/unreal/GameFlow/Source/GameFlowCore/Private/GameFlow/GfWatcher.cpp:13-16 | Destruction leaves a ticker behind, one teardown, if and only if it happens inside a callback while a connection is held. |
| UnrealWatcher.LiveAndDie | sdk/unreal/GameFlow/Source/GameFlowCore/Private/GameFlow/GfWatcher.cpp:13-16 | After any history, destroying the watcher leaves no ticker, and every connection that ended did so at depth zero. |
| UnrealWatcher.FrameThenTicker | sdk/unreal/GameFlow/Source/GameFlowCore/Private/GameFlow/GfWatcher.cpp:60-127 | After a frame and its pending teardown a stream is there if and only if no callback closed it, even if subscribers were added after the close. |
| UnrealWatcher.ReplaceInsideFrame | sdk/unreal/GameFlow/Source/GameFlowCore/Private/GameFlow/GfWatcher.cpp:24-28 | A subscriber that replaces itself inside a frame ends up without a stream, and none is opened under any later events while anyone is subscribed. |
| UnrealWatcher.NeverRetried | sdk/unreal/GameFlow/Source/GameFlowCore/Private/GameFlow/WatchConnection.cpp:22-44 | If the first connection gets no socket, none is opened again under any events while anyone is subscribed. |
| Health.ReportIff | sdk/unreal/GameFlow/Source/GameFlowCore/Private/GameFlow/GfHealthLoop.cpp:55-66 | A degraded report comes if and only if this is the sixth failure of a maximal block of failures. |
| Health.StartsLongBlockIff | sdk/rust/gameflow/src/health.rs:94-118 | The count of long blocks counts maximal failure blocks of length at least six. |
| Health.ReportsAreLongBlocks | sdk/rust/gameflow/src/health.rs:80-118 | Over every sequence of pings the reports are as many as those blocks. |
| Health.RustRun | sdk/rust/gameflow/src/health.rs:80-118 | The Rust loop makes exactly that many reports, and logs as many recoveries, less one while such a block is still open. |
| Health.RustHandle.Drive | sdk/rust/gameflow/src/health.rs:46-70 | However starts and stops interleave, at most one loop is uncancelled, and one is if and only if the last of them was a start. |
| Health.HealthLoop.OnSettled | sdk/unreal/GameFlow/Source/GameFlowCore/Private/GameFlow/GfHealthLoop.cpp:41-76 | A settled ping updates the counters, and schedules one tick unless the loop was stopped, be it by the degraded callback. |
| Health.HealthLoop.OnTick | sdk/unreal/GameFlow/Source/GameFlowCore/Private/GameFlow/GfHealthLoop.cpp:71-77 | A tick pings unless stopped. |
| Health.CallbackStops | sdk/unreal/GameFlow/Source/GameFlowCore/Private/GameFlow/GfHealthLoop.cpp:41-76 | After any pings, the degraded callback can stop the loop at the sixth failure in a row of a block and at no other ping; then nothing settles any more. |
| Health.HealthLoop.Drive | sdk/unreal/GameFlow/Source/GameFlowCore/Private/GameFlow/GfHealthLoop.cpp:24-79 | For any order of events: at most one ping or tick outstanding, exactly one while not stopped, the pings counted are those that settled, and none begins once stopped. |
| Health.OneLife | sdk/unreal/GameFlow/Source/GameFlowCore/Private/GameFlow/GfHealthLoop.cpp:24-79 | From one Start, with any events before and after a Stop: no ping begins after it, and the reports are the long failure blocks of the pings that settled. |
| Backoff.ClosedForm | sdk/unreal/GameFlow/Source/GameFlowCore/Private/GameFlow/GfBackoff.cpp:8-15 | After k delays the counter is min(base * 2^k, cap), with 32-bit doubling, below 2^30. |
| Backoff.ClosedFormIff | sdk/unreal/GameFlow/Source/GameFlowCore/Private/GameFlow/GfBackoff.cpp:8-15 | For positive 32-bit base and cap the closed form holds for all k if and only if both are below 2^30; beyond that the doubling wraps. |
| Backoff.UnrealBackoff.NextDelayMs | sdk/unreal/GameFlow/Source/GameFlowCore/Private/GameFlow/GfBackoff.cpp:8-15 | Each delay is the closed form times a factor between 0.8 and 1.2 that is linear in the draw, truncated, and the counter advances. |
| Backoff.UnrealBackoff.Reset | sdk/unreal/GameFlow/Source/GameFlowCore/Private/GameFlow/GfBackoff.cpp:17-20 | Back to the first delay. |
| Backoff.RetryBudget | sdk/rust/gameflow/src/gameflow.rs:303-313 | Sleeping only when the wait ends before the deadline, n waits sum to less than the timeout and are at least 200 ms each. |
| Backoff.ProbeWithRetry | sdk/rust/gameflow/src/gameflow.rs:293-318 | Terminates; probes until the first success or the first wait that would end at or past the deadline, with waits min(250 * 2^k, 4000) ms times their jitter, within the budget. |
| Backoff.WatchSleeps | sdk/rust/gameflow/src/watch.rs:163-201 | The sleep after each stream is min(250 * 2^d, 5000) ms, d being the streams without a message since the last one that had any. |
| Backoff.DelayTable | sdk/rust/gameflow/src/gameflow.rs:21-22 | The delays before jitter: 250, 500, 1000, 2000 and then 4000 ms when connecting, 5000 ms in the watch. |
| Backoff.SleepAfterBarren | sdk/rust/gameflow/src/watch.rs:163-201 | After a stream that delivered, whatever came before, the sleeps start at 250 ms again and double with each stream that did not. |
| Backoff.SleepConformsIff | sdk/rust/gameflow/src/watch.rs:191-199 | The sleep stays within 20% of what the connect parameters give if and only if there were at most four doublings. |
| Backoff.SixBarrenStreams | sdk/rust/gameflow/src/watch.rs:191-199 | After six streams without a message the client sleeps 5000 ms, too long. |
| Payload.Tracker.HandleUpdate | sdk/rust/gameflow/src/gameflow.rs:172-190 | An event fires if and only if the payload differs from the last one seen by probe, poll or update. |
| Payload.Tracker.Poll | sdk/rust/gameflow/src/gameflow.rs:392-398 | A successful poll silently replaces the last-known payload; a failed one changes nothing. |
| Payload.PayloadIff | sdk/rust/gameflow/src/gameflow.rs:515-521 | The payload is the value of the annotation GAMEFLOW_PAYLOAD, absent if and only if there is none. |
| Payload.PayloadSet | sdk/rust/gameflow/src/gameflow.rs:515-521 | Setting that annotation sets the payload; no other annotation has any influence. |
| Payload.DestutterMeaning | sdk/rust/gameflow/src/gameflow.rs:176-177 | The reference history: every payload shown has its place in it, places advance by one exactly where the payload changes and cover it, and it has no consecutive repetition. |
| Payload.ReplayReconstructs | sdk/rust/gameflow/src/gameflow.rs:172-190 | Probe, poll answers and events together give the whole history of changes, none missing and none invented, hence the last-known payload. |
| Payload.EventsAreDestuttered | sdk/rust/gameflow/src/gameflow.rs:172-190 | Without polls the events are exactly the destuttered history of the updates. |
| Payload.ListenerCurrentIff | sdk/rust/gameflow/src/gameflow.rs:392-398 | A listener that hears only events follows the payload at every point if and only if no poll is the first to show a change. |
| Payload.SwallowedChange | sdk/rust/gameflow/src/gameflow.rs:392-398 | A poll that shows a new payload first: the update after it fires nothing. |

## Left out

- ChunkedNdjson.SizeOf: white space is the ASCII space and the codes 9 to 13; what the engine's predicate says of codes above 127 is not modelled, and no legal size line has them.
- ChunkedNdjson.Decoder.EmitLine: does not model the UTF-8 decoding of a line, nor the engine string's handling of a NUL; lines are byte sequences.
- WatchConnection.Connection.DrainReadable: connecting, sending the request and the rest of Tick are not part of this model; the status line is not looked at, as in the code.
- JsonReader.Parse: does not model the stack limit of the recursion, nor the value a number token is converted to; AsLong is not modelled.
- JsonLanguage.FailureHasCause: which text fails is exact (`ReaderExact`); for an index past the end no cause is stated.
- RustWatch.NoFrameLostOrDuplicated: is about what is committed under the lock; user listeners run outside it, so neither the order of a replay and a concurrent frame nor silence after unsubscribing is claimed.
- RustServed.ServedIff: a thread is one subscription or one stop at a time; the loop inside a stream task is in Backoff; a listener that panics during its replay, on its own thread, is not modelled.
- UnityWatch.FlowsIff: the reconnect loop within one RunLoop is one running phase; its delays are not modelled, and a frame is one that some schedule can deliver.
- UnityWatch.SubscribersAfterDisposeIff: is about the handles opened since the last Dispose; a handle disposed twice counts once, as in the source.
- Lifecycle.LifecycleSafety: the protocol is modelled on values, step by step, not as an object updated in place; it is sidecar mode, and starting the health loop is a counted step, so nothing is claimed about a loop started after the stop.
- Health.HealthLoop.Drive: restarting after Stop and completions after destruction (also by the degraded callback) are not modelled, and the failure counter is unbounded where the source has 32 bits.
- PlayerObjects.Players.SyncFromGameServer: overwriting the cache from a watch update is modelled, its order against concurrent calls is not; one client at a time is assumed.
- UnrealWatcher.Watcher.OnFrame: callbacks run inline, as with a dispatcher that does not defer; with one that does, the same acts reach the watcher from outside. The connection's own reading is in WatchConnection, and the watcher's backoff in Backoff.
- UnrealWatcher.Watcher.Handle: a callback can cause a nested frame but not a nested close by the peer or a nested ticker, because those come only from the tick of the connection and from the core ticker, which the watcher does not enter from a callback.
- Backoff.ClosedFormIff: doubling past the 32-bit range is undefined in C++; the model assumes that it wraps.
- Backoff.ProbeWithRetry: times are real numbers; the rounding of durations and of floating point is not modelled.
- Payload.Tracker.HandleUpdate: what one listener registered from the start hears; registration and the calls outside the lock are not modelled.
- The Go, TypeScript and Godot copies of the same logic, which repeat the modules above.
- HTTP clients, sockets, timers, loggers, error texts, the environment, port parsing and mode detection.
