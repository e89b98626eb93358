# Verification of crouton's protocols and algorithms

This project models the parts of crouton that have protocol or algorithm content and proves
what they promise.  Three of them are servers and clients that talk over sockets, pipes and
shared memory; the rest are the installer's two graph traversals, a lock protocol and two pieces
of index arithmetic.  `dafny verify dfyconfig.toml` checks everything.

Code that changes things in place is modelled in place: classes for the C files' static state
and for the NaCl instance, arrays for buffers, methods with loops.  Each such method is proved
against a function of the old state, and the results are about those functions, over all inputs
and, for the protocols, over all runs.  A run is any sequence of events; an event that cannot
happen in a state does nothing there.

## Modules

| Module | Models |
|---|---|
| `Options`, `Sequences`, `Arithmetic` | an option type and small facts shared by the others |
| `Masking`, `Streams`, `Frames`, `FrameIO` | the WebSocket frame layer of `src/websocket.h`; `Frames` is the reference for RFC 6455 sections 5.2 and 5.4 |
| `Handshake` | the HTTP header parser of `src/websocket.h` |
| `Relay` | the pipe relay of `src/websocket.c` |
| `SharedMemory`, `Protocol` | segments and messages shared by the framebuffer client and server |
| `PressedKeys`, `ShmCache`, `FbServer` | `src/fbserver.c` |
| `Kiwi`, `Requesting` | `host-ext/nacl_src/kiwi.cc`, and what its actions do to its screen requests |
| `Session`, `Greeting`, `Delivery`, `UpToDate`, `SearchKey`, `Typing`, `KeyLimit` | the two programs together: flow control, how a session ends, end-to-end image correctness, that the picture stays up to date, the Search key, all other keys and clicks, the size of the pressed-key table |
| `Targets`, `Bootstrap` | `targets/common` with its driver in `installer/main.sh`; `installer/arch/bootstrap` |
| `DisplayLock` | `src/freon.c` |
| `Windows`, `Cursor` | `raiseWindow` of `src/wmtools.c`; cursor scaling of `kiwi.cc` |

Sockets and pipes are streams whose reads and writes move any positive number of bytes; a
`reliable` one only fails when it is closed.  What a system call, the X server, a helper program
or a random generator answers is a parameter.  The system state of `Session` has two FIFO
channels, a multiset of scheduled callbacks with their tokens, a count of pending flushes and the
shared segments; the sign of the delay after a flush, which comes from the clock, is a parameter
of the event.  Runs start when the client's window has been given its first graphics context.  The
results about all runs hold for the server as it is, which greets the client with a message that
the client does not know, and for one that does not greet; `greets` tells which.

## Where the code does less than it promises

- A reply that arrives while the graphics context is null is dropped with the screen still
  flying (`host-ext/nacl_src/kiwi.cc:999-1004`); that session never refreshes again, whether the
  server greets or not (`Session.StallsWhenSkipped`, `Session.StallLasts`, and for a run
  `Session.StallHappens`).
- A press of Search always resets the state (`host-ext/nacl_src/kiwi.cc:530-531`), so that Super
  can be lost track of and still be down after the release (`SearchKey.SuperCanStick`;
  `SearchKey.StepTracks` gives the exact condition).
- The provider of a requirement is looked up by the end of its name (`targets/common:57`), and can
  be another one (`Targets.ResolveCanMiss`; `Targets.RightForAllTargets` gives the exact condition).
  With the names that this repository provides it is the right one (`Targets.RightForX11`).
- An Arch package is looked up by the beginning of its name and version
  (`installer/arch/bootstrap:101`), and can be another one (`Bootstrap.FindCanMiss`;
  `Bootstrap.FindIsNamed` gives the exact condition).  The loop can then come to unpack a package
  twice, at which `tar -k` fails and the script stops (`Bootstrap.UnpacksTwice`;
  `Bootstrap.NeverTwice` gives the exact condition).
- A cycle among the targets that are emitted, such as that of xiwi and extension, breaks the order
  of emission (`Targets.CycleBreaksOrder`), and only a cycle does (`Targets.OrderIsAcyclicity`).
- The unmasking of a message in fragments can write up to three bytes past its buffer
  (`FrameIO.WordPastTheEnd`; `FrameIO.ReachesWords` gives the exact condition).
- What the second try of `find_shm` fetches is never returned by that call
  (`ShmCache.FindSucceeds`, and for an input `ShmCache.SecondFetchIsLost`).
- If the process in control of the display dies, nobody is until another process claims it
  (`DisplayLock.OneInControl`, `DisplayLock.DeathIsSafe`).
- The pressed-key table aborts when full even on a key that is in it
  (`PressedKeys.AbortsWhenFull`, `PressedKeys.AbortsOnRepeat`), though this client has too few keys
  to fill it (`KeyLimit.ServerKeepsRunning`).
- A scaled cursor drifts from row to row when the scale does not divide its width
  (`Cursor.ShownPixel`, `Cursor.CursorDrifts`).
- The server greets a client with a message `I` (`src/fbserver.c:494-504`) that this client does
  not know and answers by asking to close (`host-ext/nacl_src/kiwi.cc:435-444`): the first message
  of a session ends it, and a session asks for one frame at most (`Greeting.EndIsAskedFor`,
  `Greeting.FirstMessageEnds`, `Greeting.OneFrameASession`).

## Model

| member | source | states |
|---|---|---|
| Masking.XorSplits | src/websocket.h:528-530 | the word-wide exclusive or on which the loop relies acts separately on the low and the high digits of a number |
| Masking.XorWords | src/websocket.h:528-530 | one 32-bit exclusive or of four payload bytes with the key, read little-endian, is the exclusive or of each byte with its own key byte |
| Masking.MaskedTwice | src/websocket.h:515-534 | masking (RFC 6455 section 5.3) is its own inverse |
| Masking.MaskedPieces | src/websocket.c:229-266 | masking a payload in pieces, all but the last a multiple of four long, is masking the whole; hence 4096-byte reads may each restart the key |
| Masking.PhaseIsModulo | src/websocket.h:526-530 | the key byte used at position i is number i mod 4 |
| Masking.MaskedByZero | src/websocket.h:524 | a zero key leaves the payload alone, so skipping the loop is right |
| Masking.UnmaskInPlace | src/websocket.h:524-531 | the word loop turns the payload into out[i] = in[i] xor key[i mod 4], whatever lies in the up to three bytes past it that it also rewrites, and touches nothing else |
| Streams.BlockRead | src/websocket.h:101-116 | for any sequence of short reads, exactly the next `size` bytes arrive, or an error is returned; on a reliable stream only when there are fewer |
| Streams.BlockWrite | src/websocket.h:120-135 | for any sequence of short writes, exactly the data is sent; on failure a prefix of it |
| Frames.BigEndianRoundTrip | src/websocket.h:345-351 | a length written in network order is read back, for every number that fits the field |
| Frames.DecodeServerFrame | src/websocket.h:327-366 | the RFC 6455 section 5.2 decoder (which insists on minimal lengths) recovers opcode, FIN, payload and the rest of the stream from every unmasked frame |
| Frames.DecodeClientFrame | src/websocket.h:387-456 | the same for every masked frame |
| Frames.ServerFrameInjective | src/websocket.h:327-366 | two frames with the same bytes are the same frame |
| FrameIO.Client.WriteFrame | src/websocket.h:327-366 | for every opcode, FIN bit and size, exactly the RFC frame of the data is appended to the output, built backwards in front of it; a failed write closes the socket |
| FrameIO.Client.WriteHeader | src/websocket.h:329-356 | the bytes in front of the data become the RFC header, in the shortest length form, and the data is untouched |
| FrameIO.ReceivesClientFrame | src/websocket.h:379-507 | the header reader understands every frame of a well-behaved client up to 16 MiB |
| FrameIO.ReceivesEvery | src/websocket.h:379-507 | for every masked frame, with no other function of the reader named: data goes on to the body, PING and PONG with FIN set are consumed, and CLOSE, every other opcode, every fragmented control frame and every payload over 16 MiB closes the connection with notice |
| FrameIO.UnmaskedIsLost | src/websocket.h:434-448 | so does every frame without a mask |
| FrameIO.ReservedIsLost | src/websocket.h:396-400 | and every frame with a reserved bit set |
| FrameIO.Client.ReadFrameHeader | src/websocket.h:379-507 | on any connection, with any short reads, a header that is returned is the one that the function Receive finds in the stream, and so are the bytes consumed; on an open reliable one the outcome is exactly that of Receive, PONGs and CLOSE included: reserved bits, a missing mask, an oversized length, a fragmented or unknown control frame each close the connection |
| FrameIO.Client.ReadControl | src/websocket.h:459-504 | a control frame is consumed whole; PING is answered, PONG ignored, CLOSE and everything else ends the connection |
| FrameIO.Client.ReadFrameData | src/websocket.h:515-534 | exactly `size` bytes are consumed and stored unmasked; beyond the last word nothing changes |
| FrameIO.ReadsMessage | src/websocket.h:379-507 | reassembly: for every sequence of masked data fragments interleaved with PING and PONG frames, the result is the concatenation of the data, exactly these frames are consumed and every PING is answered; or, exactly if the data exceeds the buffer, the connection is closed with notice |
| FrameIO.EndsAnywhere | src/websocket.h:542-572 | whatever parts of a message came before, what ends a connection, such as a CLOSE frame, ends the message |
| FrameIO.Client.ReadFrame | src/websocket.h:542-572 | on any connection, for every schedule of short reads, a message that is returned is the one of the function ReadMessage that FrameIO.ReadsMessage is about; on an open reliable one the outcome is exactly that of ReadMessage |
| FrameIO.ReachesWords | src/websocket.h:526-558 | for every message, a buffer of just the bytes offered is enough if and only if the whole words of each fragment that fits are inside it |
| FrameIO.AlignedFragmentsFit | src/websocket.h:536-558 | so a buffer of a multiple of four bytes, as the comment in the code asks for, is enough if every fragment starts at a multiple of four |
| FrameIO.WordPastTheEnd | src/websocket.h:526-558 | and not otherwise: for every size of buffer up to 16 MiB, those of all callers included, there is a message of just that size that reaches past it |
| Relay.AwaitsNext | src/websocket.c:165-206 | each frame sent extends the message as an RFC 6455 section 5.4 receiver sees it, and the FIN frame completes it |
| Relay.SendPipe | src/websocket.c:165-206 | for any chunking of the pipe, the frames sent form one valid fragmented TEXT message whose reassembly is exactly the contents of the pipe |
| Relay.DeliversAnswer | src/websocket.c:217-267 | an answer, however fragmented, masked and interleaved with control frames, reaches the other pipe unmasked and complete; nothing after it is consumed |
| Relay.SkipsCommand | src/websocket.c:235-260 | a complete unrequested command, fragmented or not, is answered and leaves nothing in the pipe |
| Relay.RelaysAnswer | src/websocket.c:217-267 | main result: after any number of unrequested commands, the bytes piped are exactly the answer message, and what was sent is, to a receiver of RFC 6455 frames, exactly these text messages in order: C for each command, followed by what croutoncycle printed for a list command, and nothing for CO |
| Relay.ReplyTells | src/websocket.c:353-428 | the reply to one command, decoded by the receiver: C and the listing for Cl, nothing for CO, C for any other command |
| Relay.RefusesOther | src/websocket.c:235-271 | any other complete message that is no answer, be it too long or no command, ends the exchange with an empty pipe |
| Relay.EndsAnswer | src/websocket.c:217-271 | whatever parts of an answer came before, what ends a connection, such as a CLOSE frame, ends the exchange, and the pipe has these parts |
| Relay.BreaksOffAfterCommands | src/websocket.c:217-267 | if the stream ends anywhere before the answer does, the pipe has a beginning of the answer and nothing else |
| Relay.HandleUnrequested | src/websocket.c:353-428 | the accept or reject decision: list commands are answered with the listing, an OK with nothing, other commands with C; anything else closes the connection |
| Relay.RelayFrame | src/websocket.c:229-266 | one frame, read in pieces of at most 4096 bytes, is either piped unmasked or, decided by its first byte, treated as a command; of a frame that breaks off the whole pieces are piped |
| Relay.RelayAnswer | src/websocket.c:217-271 | the answer loop computes the function ReadAnswer of the bytes the client sent, also in what the pipe holds when it breaks off; on any connection, if it does not fail then the pipe has the answer |
| Relay.PipeinRead | src/websocket.c:152-271 | one whole exchange: the request is sent as one message, and the answer phase is that of ReadAnswer; on any connection, if it ends well then the pipe out has the answer; without a client the pipe gets the error text |
| Handshake.ParsesHeaders | src/websocket.h:680-791 | from the request line on, the parser with its 4096-byte buffer does what splitting all lines at once does: the first bad line decides, closing the connection silently if with its newline it exceeds 4096 bytes and with an error if it has no colon; without a bad line, the fields and the key are those of all lines |
| Handshake.ParsesAll | src/websocket.h:680-799 | the same for the whole header with its request line, ended by a blank line or not |
| Handshake.Acceptance | src/websocket.h:731-799 | a handshake is accepted if and only if the request line is GET / HTTP/1.1, every line has a colon, and each required field occurs with a good value (RFC 6455 section 4.2.1) |
| Handshake.AcceptsWhatIsSaid | src/websocket.h:731-799 | main result, in the words of the header itself: a handshake is accepted if and only if its first line reads GET / HTTP/1.1 and there are lines that say Upgrade: websocket, Connection: Upgrade, Sec-WebSocket-Version: 13, Host: and the host, and Sec-WebSocket-Key: with 24 characters, every line has a colon and none is too long; the key returned is that of the last such line |
| Handshake.BitsSay | src/websocket.h:761-789 | each bit is earned exactly by the lines that say so, in literals |
| Handshake.RequestBitsSay | src/websocket.h:731-754 | and by the request lines that begin so |
| Handshake.SplitsWhatWasSent | src/websocket.h:680-728 | splitting finds exactly the lines that were sent, up to the first blank one |
| Handshake.FieldsOfIs | src/websocket.h:761-789 | a bit is set exactly if some header line earns it |
| Handshake.OrderDoesNotMatter | src/websocket.h:731-799 | of two streams with the same request line and the same header lines in any order, the parser accepts both or neither |
| Handshake.LastKeyIsLast | src/websocket.h:773-779 | the key returned is the last one with 24 characters |
| Handshake.EmptyKeyDepends | src/websocket.h:712-721 | why a key line that ends in its colon is left out: what the code takes for its value begins at the newline, and is accepted as a key exactly if the next NUL, wherever reading has got to, is 24 bytes further |
| Handshake.Refill | src/websocket.h:688-703 | shifting the unfinished line to the start of the buffer and reading again preserves what was scanned of it, and the value pointer |
| Handshake.FinishLine | src/websocket.h:705-714 | at the end of a line the buffer holds its key and its value as C strings |
| Handshake.ReadLine | src/websocket.h:682-723 | for any chunking of the input, one line, ended by CR LF or by LF alone, is read as it stands in the input, or the read fails exactly if the line does not end or does not fit |
| Handshake.SendError | src/websocket.h:622-660 | the answer to a refused handshake: 404 for other paths and plain requests, 400 with the version for a wrong version, 400 otherwise |
| Handshake.ReadHeader | src/websocket.h:667-800 | chunking independence: the in-place parser computes the function Parse of the byte stream, whatever the reads return; on any connection, what it accepts is what Parse accepts |
| PressedKeys.PressedTable.Add | src/fbserver.c:55-68 | the key is appended unless present; a full table aborts before the search |
| PressedKeys.PressedTable.Remove | src/fbserver.c:71-82 | the key is gone, the last entry takes its place, and nothing else moves |
| PressedKeys.PressedTable.ReleaseAll | src/fbserver.c:85-99 | one up event per entry, in order, and an empty table |
| PressedKeys.PressedTable.Dispatch | src/fbserver.c:587-631 | each key, button, quit and disconnect is told to the X server and entered in the table in this order, as PressedKeys.TableAgrees assumes |
| PressedKeys.RemovedKeepsTable | src/fbserver.c:71-82 | removal keeps the table duplicate-free and takes out exactly that key |
| PressedKeys.TableAgrees | src/fbserver.c:587-631 | in every run, across connections, the table is duplicate-free and, as a set, the keys the X server was told are down |
| PressedKeys.AbortsWhenFull | src/fbserver.c:55-57 | the program aborts exactly on a press while 256 keys are down, be it of one of them |
| PressedKeys.AbortsOnRepeat | src/fbserver.c:55-57 | a run in which it does: 256 presses and the first key again |
| PressedKeys.NothingDownAfterRelease | src/fbserver.c:620-629 | after Quit or a disconnect both the table and the set of keys down are empty, by one up event per entry |
| ShmCache.Shm.Close | src/fbserver.c:234-243 | a mapped entry is unmapped and its descriptor closed; any other is left alone |
| ShmCache.Shm.FindShm | src/fbserver.c:246-336 | for every answer of the helper and the system calls, the in-place lookup with its eviction and two tries is the one that ShmCache.FindKeepsValid and FindSucceeds are about |
| ShmCache.FindKeepsValid | src/fbserver.c:246-336 | entries never share an address other than 0, the open descriptors are those of the mapped entries, and a returned entry is mapped, has the requested address and carries the requested signature |
| ShmCache.FindSucceeds | src/fbserver.c:246-336 | a lookup succeeds if and only if the address is cached under the right signature or the first segment fetched has it |
| ShmCache.SecondFetchIsKept | src/fbserver.c:246-336 | when only the second segment fetched has the signature the lookup fails, but the next one for it is a hit |
| ShmCache.SecondFetchIsLost | src/fbserver.c:246-336 | a lookup that fails so: the helper first gives a segment with another signature |
| ShmCache.EvictsInTurn | src/fbserver.c:250-259 | a new address takes the entry whose turn it is, whatever the helper answers, and leaves the other alone |
| ShmCache.NewestSurvives | src/fbserver.c:250-259 | so what a lookup of one new address has cached is untouched by the lookup of the next new one |
| ShmCache.FindsInPlace | src/fbserver.c:246-336 | a lookup of a cached address moves nothing, and changes nothing at all if the signature is right |
| ShmCache.WorkingSetStays | src/fbserver.c:246-336 | so, for every sequence of calls, a client that alternates between two buffers has both cached for ever |
| ShmCache.UncachedFinds | src/fbserver.c:246-336 | a lookup that starts from an empty cache gives the first segment fetched, exactly if it carries the signature |
| ShmCache.CachedFindsWhatUncachedFinds | src/fbserver.c:246-336 | if only one segment carries the signature, then whenever the uncached lookup gives a segment the cached one gives the same, and it never gives another |
| ShmCache.DisconnectClosesAll | src/fbserver.c:630-631 | after a disconnect nothing is open or mapped |
| ShmCache.RunsKeepValid | src/fbserver.c:246-336 | the cache invariant holds after any sequence of lookups and disconnects while the memory changes at will |
| Kiwi.KiwiInstance.Request | host-ext/nacl_src/kiwi.cc:914-949 | only with the current token and no screen flying: signs the buffer, takes a new token and sends the request |
| Kiwi.KiwiInstance.Flushed | host-ext/nacl_src/kiwi.cc:954-994 | a finished flush clears the flying screen, takes the next image, and asks for it at once if late, by a timer with the current token if not, and not at all at rate 0 |
| Kiwi.KiwiInstance.SetFPS | host-ext/nacl_src/kiwi.cc:836-844 | a higher rate forces a refresh and asks at once, before the rate changes |
| Kiwi.KiwiInstance.PaintFrame | host-ext/nacl_src/kiwi.cc:998-1027 | shows the buffer, blanked if asked, and schedules a flush; without a context neither |
| Kiwi.KiwiInstance.BlankPixels | host-ext/nacl_src/kiwi.cc:1006-1015 | every pixel becomes opaque black |
| Kiwi.KiwiInstance.SocketParseScreen | host-ext/nacl_src/kiwi.cc:282-321 | a reply is painted, blanked, or schedules the next request |
| Kiwi.KiwiInstance.SocketParseVersion | host-ext/nacl_src/kiwi.cc:250-279 | a session starts with the version reply, the wanted resolution and a first image, and with a request made, scheduled, or not wanted |
| Kiwi.KiwiInstance.SocketReceived | host-ext/nacl_src/kiwi.cc:385-444 | dispatch on the first byte: replies are parsed, and anything else, Init included, makes the client ask for the connection to be closed |
| Kiwi.KiwiInstance.HandleKeyEvent | host-ext/nacl_src/kiwi.cc:488-565 | each key event does to the client what Typing.ActTypes and SearchKey.StepTracks are about |
| Kiwi.KiwiInstance.MouseClick | host-ext/nacl_src/kiwi.cc:849-868 | each click does what Typing.ActTypes and Typing.ClickIsAtPointer are about |
| Typing.ActTypes | host-ext/nacl_src/kiwi.cc:488-565 | for every action, the keys, clicks and Quits it sends, in a table of literals: a letter or other key is sent with its own code and direction, Super (0x85) goes down before the first letter or click with Search held and up before the next other key, a tap of Search alone sends both, a lost focus sends Quit |
| Typing.ClickIsAtPointer | host-ext/nacl_src/kiwi.cc:849-868 | a click is sent right behind a move to its position, unless the position was sent before |
| Requesting.ActMoves | host-ext/nacl_src/kiwi.cc:836-949 | whatever a user, a timer or the window does, a client makes at most one request, only if no screen is flying, and for the buffer as it is; otherwise buffer and requests stay |
| Requesting.MovesCompose | host-ext/nacl_src/kiwi.cc:930-936 | doing two such things in a row never makes two requests |
| FbServer.Program.AnswerScreen | src/fbserver.c:344-459 | for whatever damage, frame and helper answers: the reply sent, the cache and the memory are those that FbServer.WriteImageIsRight characterises |
| FbServer.Program.Handle | src/fbserver.c:557-626 | one turn of the dispatch loop does to keys, cache, memory and replies what the session results assume of the server |
| FbServer.WriteImageIsRight | src/fbserver.c:344-459 | a request gets one reply; it is updated if and only if the size is another one than last time, the client asks for a refresh, or there is damage; success means that the frame is in the one segment with the signature, failure that no memory changed; a new cursor is reported with its serial |
| UpToDate.OthersAnswered | src/fbserver.c:557-626 | the answer to every other message: Init, the cursor if there is one, the resolution, or nothing |
| FbServer.FailsOnlyOnOldLength | src/fbserver.c:435-453 | when the helper finds the buffer, an updated reply reports failure if and only if the buffer is cached with the length of an earlier request |
| FbServer.HangUpKeepsValid | src/fbserver.c:628-631 | the end of a connection leaves no descriptor open and no key down |
| Session.SingleOutstanding | host-ext/nacl_src/kiwi.cc:914-994 | in every run of a session, requests in flight, replies in flight and pending flushes are at most one; none if no screen is flying, and one if one is, unless a frame went unpainted for want of a context or the client has asked for the end of the session |
| Session.RefreshGoesOn | host-ext/nacl_src/kiwi.cc:836-844 | in every run, while the target rate is positive a screen is flying or a timer with the current token is set |
| Session.StepKeepsFlow | host-ext/nacl_src/kiwi.cc:914-994 | the flow invariant is kept by every step of both programs |
| Session.ServeCounts | src/fbserver.c:412-459 | serving a message turns a request into a reply and changes nothing else of the count |
| Session.StallsWhenSkipped | host-ext/nacl_src/kiwi.cc:999-1004 | a session whose end the client has not asked for stalls in a step if and only if the step delivers an updated reply while the context is null |
| Session.StallLasts | host-ext/nacl_src/kiwi.cc:999-1004 | a stalled session shows nothing new until it is closed |
| Session.StallHappens | host-ext/nacl_src/kiwi.cc:999-1004 | for every window and memory, a run of eight events that stalls: a failed rebinding of the context, connect, serve three messages, receive the replies; with a server that greets the client has asked for the end by then, with another it has not |
| Greeting.EndIsAskedFor | host-ext/nacl_src/kiwi.cc:418-444 | in every run, the client has asked for the end of a session if and only if it has received Init or failed to receive; with a server that greets, Init is the first message it receives and comes once, with another it never comes |
| Greeting.FirstMessageEnds | src/fbserver.c:494-504 | so with this server the first message of every session is what ends it |
| Greeting.ClosingIsSilent | host-ext/nacl_src/kiwi.cc:223-226 | from then on the client sends nothing, whatever happens |
| Greeting.OneFrameASession | host-ext/nacl_src/kiwi.cc:914-949 | so with this server, over all runs, at most one frame is asked for in a session |
| Delivery.ShowsWhatWasCaptured | host-ext/nacl_src/kiwi.cc:287-290 | end to end, over all runs: when a reply is updated and not failed, the buffer holds exactly the frame captured for it, and this is what is painted |
| Delivery.CacheFindsTheBuffer | src/fbserver.c:431 | end to end, over all runs: only the segment the client signed has the signature, no lookup gives another, and whenever a lookup without the cache gives it so does the lookup with the cache of that moment |
| Delivery.BufferIsKept | host-ext/nacl_src/kiwi.cc:976-981 | while a request or its reply is under way the image buffer is neither replaced nor signed again, and only the server writes to memory |
| Delivery.ServeScreenRight | src/fbserver.c:431-459 | serving a request makes its reply true of the buffer |
| UpToDate.CapturedIsPresent | src/fbserver.c:359-411 | over all runs in which damage is reported when the picture is another one than at the last request: after every request served, updated or not, the frame captured last is what the screen showed at that request |
| UpToDate.ShowsThePresent | host-ext/nacl_src/kiwi.cc:282-321 | main result, end to end over all such runs: after an updated reply the client shows what the screen showed when the server answered; after a failed one it shows opaque black and wants a refresh; and after one without an update it shows the present picture all the same, or wants a refresh, unless a frame went unpainted or the client has asked for the end of the session |
| UpToDate.ActKeepsWish | host-ext/nacl_src/kiwi.cc:914-949 | whatever a user, a timer or the window does, the wish for a refresh is kept until a request carries it |
| UpToDate.StepKeepsInformed | host-ext/nacl_src/kiwi.cc:370-378 | every step of both programs keeps that the client shows the frame captured last or is going to learn that it does not: by a refresh, an update under way, or the resolution that each session asks for first |
| UpToDate.RaisingAsksForAll | host-ext/nacl_src/kiwi.cc:836-844 | a higher frame rate sends a signed request with the refresh flag, or leaves the flag for the next one if a screen is flying; a lower rate sends nothing |
| UpToDate.AsksWhenDue | host-ext/nacl_src/kiwi.cc:954-994 | after a flush the next image is asked for at once if late, with the flag as it stands; by a timer with the current token if early; not at all at rate 0 |
| UpToDate.StaleTimerIsIgnored | host-ext/nacl_src/kiwi.cc:924-926 | a timer set before the last request asks for nothing |
| UpToDate.UnchangedKeeps | host-ext/nacl_src/kiwi.cc:294-303 | after a reply without an update the picture stays and a timer is set, unless no frames are wanted |
| UpToDate.ClosedIsBlack | host-ext/nacl_src/kiwi.cc:228-235 | the end of a session leaves the picture opaque black |
| UpToDate.AsksForNewSize | host-ext/nacl_src/kiwi.cc:735-756 | a new window size is sent on; a new view, if it can be bound, makes the client want a refresh |
| UpToDate.AsksForNewCursors | host-ext/nacl_src/kiwi.cc:305-318 | over all runs: the client asks for a cursor exactly when a reply reports one that it has not received in this session |
| SearchKey.StepTracks | host-ext/nacl_src/kiwi.cc:526-565 | in every step, the relation "Super will be down only if the state is kSearchDown" survives if and only if the step is not a press of Search while Super is or will be down, in a session whose end the client has not asked for |
| SearchKey.SuperOnlyWhileDown | host-ext/nacl_src/kiwi.cc:526-565 | in every run without such a press, once the channel is drained Super is down at the server only if the state is kSearchDown, or the client has asked for the end of the session |
| SearchKey.SuperUpAfterRelease | host-ext/nacl_src/kiwi.cc:532-540 | and it is, or will be, up after every release of Search, unless the client has asked for the end of the session |
| SearchKey.SuperCanStick | host-ext/nacl_src/kiwi.cc:530-531 | with such a press it is false: after Search, a letter, Search, another key and the release of Search the state is inactive, but Super is down at the server once the channel is drained |
| SearchKey.DispatchSuper | src/fbserver.c:587-622 | the server does to Super what the queued messages say |
| Typing.HeldIsDown | src/fbserver.c:587-631 | main result over all runs: once the messages have been handled, the keys and buttons down at the X server are, but for Super, exactly those pressed and not released since the last Quit or connection |
| KeyLimit.ServerKeepsRunning | src/fbserver.c:55-57 | in every run the pressed-key table never overflows: the key codes of host-ext/nacl_src/keycode_converter.h:73-216 and the mouse buttons are fewer than 256 |
| Targets.ResolveIsProvider | targets/common:57-58 | the awk pattern finds the provider of that very name unless a longer name ending in it comes first; then it finds another, if each target provides one name |
| Targets.RightForAllTargets | targets/common:57-58 | for names provided by whatever targets, also several by one: the pattern is right for all of them if and only if no longer name comes first |
| Targets.RightForX11 | targets/common:57-58 | here x11 is the only name provided, and the pattern is right for every name that is not shorter |
| Targets.ResolveCanMiss | targets/common:57-58 | an input on which it finds another one (with a name that this repository does not provide) |
| Targets.Installer.Source | targets/common:43-63 | sourcing ends on every graph, cycles included, with the marks and the output that the results below are about |
| Targets.Installer.CollectProvides | installer/main.sh:693-707 | the first pass collects the PROVIDES lines of the chosen targets in order |
| Targets.FirstChosenStandsFor | targets/common:36-42 | of several chosen targets that provide a name the one chosen first stands for it |
| Targets.Installer.Run | installer/main.sh:692-722 | the whole run over custom file, chosen targets and post-common leaves the marks and the output that the results below are about, or fails where they say |
| Targets.InstallsWhatIsNeeded | targets/common:44-63 | for every graph, cycles included: no target is emitted twice; the custom target file, every chosen target, post-common and every resolved requirement of an emitted target end up marked (or their file is inert) |
| Targets.InstallsNothingElse | targets/common:43-63 | and every target emitted is one of these; the marks are exactly the targets emitted and what they provide |
| Targets.PostCommonIsLast | installer/main.sh:715-722 | post-common is emitted last, whatever else is, if nothing but the end of the installation asks for it |
| Targets.RequirementsComeFirst | targets/common:54-63 | if the resolved requirements of the targets that are emitted have no cycle, every requirement is emitted before its dependant, unless it is inert or not emitted because an emitted target provides it |
| Targets.OrderIsAcyclicity | targets/common:54-63 | and only then: the order is kept if and only if the resolved requirements of what is emitted have no cycle |
| Targets.SucceedsIfComplete | targets/common:43-63 | the installation succeeds whenever no file is missing |
| Targets.CycleBreaksOrder | targets/xiwi:5-6 | installing xiwi, with its cycle with extension, does not keep the order: extension comes first |
| Targets.Installer.DedupTargets | installer/main.sh:616-639 | the loop over a list file ends with the list that Targets.AddsEachOnce describes |
| Targets.AddsEachOnce | installer/main.sh:616-639 | explicit choices stay first; exactly the existing listed targets are added, none twice |
| Bootstrap.Bootstrap | installer/arch/bootstrap:84-134 | the worklist loop ends on every database, with the packages that Bootstrap.BootstrapCloses is about |
| Bootstrap.TurnShrinks | installer/arch/bootstrap:91-134 | each turn installs a package for good or removes a word |
| Bootstrap.BootstrapCloses | installer/arch/bootstrap:84-134 | on success everything requested and every dependency of what was installed is installed or provided by something installed; no word is installed twice, and nothing that was not requested or a dependency of an earlier package |
| Bootstrap.BootstrapSucceeds | installer/arch/bootstrap:101-105 | failure only for want of a package |
| Bootstrap.FindIsNamed | installer/arch/bootstrap:101 | on every database, the lookup finds the first package of that very name if and only if the first match is not of another name, and none of that name is passed over for its version |
| Bootstrap.FindIsNamedUnlessExtended | installer/arch/bootstrap:101 | for ordinary words and versions: if and only if no package whose name continues the word with a hyphen and a digit comes before it |
| Bootstrap.FindCanMiss | installer/arch/bootstrap:101 | a database on which it finds another one |
| Bootstrap.UnpacksOnce | installer/arch/bootstrap:101-120 | a successful loop unpacks no package twice if and only if no two words installed find the same package |
| Bootstrap.UnpacksEachByName | installer/arch/bootstrap:101-120 | it is enough that the lookup is not mistaken about the words that are requested or depended on; every package unpacked then has the name of its word |
| Bootstrap.NeverTwice | installer/arch/bootstrap:101-120 | a condition on the database alone: if every dependency can be found, then no request at all makes it unpack a package twice if and only if different words find different packages, but for words that the package provides |
| Bootstrap.UnpacksTwice | installer/arch/bootstrap:101-120 | otherwise the loop can come to it: gtk and gtk-2x find one package (where the second tar -k fails and the script stops) |
| DisplayLock.OneInControl | src/freon.c:55-95 | with any number of processes in any interleaving, and deaths at any time, never more than one of Chromium OS and the chroots is in control; one is, if and only if since the last death of a process in control some process has told Chromium OS to drop control |
| DisplayLock.NeverOrphaned | src/freon.c:49-95 | so somebody always is where nobody dies who is in control |
| DisplayLock.DeathIsSafe | src/freon.c:49-95 | the death of a process leaves the display to nobody if and only if the process was in control |
| DisplayLock.Freon.SetDisplayLock | src/freon.c:55-95 | after a claim this process has the lock, also if it had it before; after a release nobody has, unless another process had it |
| DisplayLock.Freon.Ioctl | src/freon.c:97-137 | an ioctl on the pretended terminals is a run of the protocol: VT_RELDISP 1 and VT_ACTIVATE 0 take control and unlock, VT_RELDISP 2 and VT_ACTIVATE 7 lock and drop control, and everything else leaves the display alone |
| Windows.RaiseWindow | src/wmtools.c:67-119 | the calls made to raise a window; none if it is not there |
| Windows.Restacked | src/wmtools.c:98-100 | the loop leaves the old order, front to back and rotated, in the array |
| Windows.SlotIsTaken | src/wmtools.c:98-100 | slot p is written exactly once, by window (n-1-p-rotate) mod n |
| Windows.RotatedAt | src/wmtools.c:98-100 | neworder[p] == children[(n-1-p-rotate) mod n] |
| Windows.SlotsRotate | src/wmtools.c:93-100 | the new order is the old one, front to back, rotated |
| Windows.RaisedIsInFront | src/wmtools.c:67-119 | the requested window is in front and the others are all still there |
| Cursor.Scale | host-ext/nacl_src/kiwi.cc:344-347 | doubling ends at the smallest power of two at which both sides are at most 32 |
| Cursor.SampleInside | host-ext/nacl_src/kiwi.cc:355-356 | every sample index lies inside the image |
| Cursor.ScaleDown | host-ext/nacl_src/kiwi.cc:344-358 | every pixel of the scaled image is the sample the code names |
| Cursor.ShownPixel | host-ext/nacl_src/kiwi.cc:355-356 | a sample is the nearest pixel if and only if it is in the first row or the scale divides the width |
| Cursor.CursorDrifts | host-ext/nacl_src/kiwi.cc:355-356 | a cursor for which it does not: 65 by 4 pixels |

## Left out

- FrameIO.Client.ReadFrame: requires that the last word of each fragment fits the buffer (exactly when, says FrameIO.ReachesWords); what a write past it does is not modelled.  The buffer of Relay.PipeinRead is three bytes longer than in the code, and holds every message.  Lengths are unbounded integers below the 16 MiB limit, bit masks are arithmetic on bytes, and the C widths of `int` and `size_t` are not modelled.
- FrameIO.Client.ReadControl: a PONG is an event with a length; the layout of its payload (`src/websocket.h:475-488`) supports no claim about the bytes.
- Relay.PipeinRead: the polling and time-outs of opening the pipe and the fork of croutoncycle are not modelled; what it prints, of at most 4079 bytes, is a parameter for each command.
- Handshake.ReadHeader: assumes that the input has no NUL, that the value of a header that matters does not begin behind the end of its line (Upgrade, Connection, Host and Sec-WebSocket-Version lines that end in their colon and a bare LF, and Sec-WebSocket-Key lines that end in their colon; Handshake.EmptyKeyDepends says what happens then), and that the byte of memory before the buffer, at which the code looks when a line that starts the buffer is a bare LF, is not a CR; bytes after the blank line are dropped as the code drops them.
- Accepting a connection after the header: SHA-1, base64, the version exchange and popen2.
- ShmCache.Shm.FindShm: MAP_FAILED, which the code does not test for, cannot happen here; the parsing of the helper's output is one outcome, failure.
- FbServer.Program.Handle: packets of the wrong size end the connection and are not modelled; XShm set-up always succeeds; setres is a parameter.
- Session.SingleOutstanding: one connected session at a time, with no flush pending from the one before when it starts; the end of the connection is one step in which both ends drop what is under way, and messages on their way to a client that has asked for it may still arrive; the client does not connect before its first graphics context is bound, when its image would have no size; tokens do not wrap around.
- Delivery.ShowsWhatWasCaptured: the random signature of each request is not what another segment starts with; images are at least 8 bytes large and their sides fit 16 bits.
- UpToDate.ShowsThePresent: assumes, besides, that the X server reports as damage (or a new window) whatever makes the picture another one than at the last request of the same size; drawing the cursor itself is left out, and so are its pixels.
- Kiwi.KiwiInstance.HandleKeyEvent: the key-code tables are a classification of keys (no other key has the code of Search), with codes below 0xf2 and buttons below 8, VF1 servers, the wheel accumulators, touch identifiers, scale factors and FPS averages are left out.
- Targets.Installer.Source: every target sets its own REQUIRES, names hold no `=` or regular-expression characters, and code that a target runs before it sources targets/common (chrome-common's extra mark) is left out; a target that never sources it is inert.
- Targets.Installer.DedupTargets: the comma-separated strings are sequences of names.
- Bootstrap.Bootstrap: package names hold no regular-expression characters and versions no colon; downloading and unpacking always succeed, also the second unpacking of one package, at which tar -k fails in truth.
- DisplayLock.Freon.Ioctl: flock and the D-Bus calls succeed; the contents of the lock file and the interception of open and close are left out.
- Windows.RaiseWindow: the X server's own handling of the requests.
- X11, PPAPI, mount and chroot scripts, the extension's JavaScript, croutontriggerd, distropkgs, getopts_nextarg: plumbing, data or easy members.
