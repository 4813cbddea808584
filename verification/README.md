# Verified model of the proxy

A Dafny model of a single-threaded HTTP proxy in C, and proofs about it.  Clients connect over HTTP; their complete
requests are queued and sent over length-prefixed frames to backend workers; replies come back by a connection id and
are written to the client of that id.  `dafny verify dfyconfig.toml` checks everything.

Four pieces of the program are modelled.

* **The intrusive red-black tree** (`RbShape`, `RbBalance`, `RbInsert`, `RbDelete`, `RbTree`, `Sweep`).  Nodes with
  parent links, one shared black sentinel whose parent link serves as scratch, rotations, both fix-ups, search, minimum
  and successor, as methods that write the heap.  A ghost shape with a path to the node at work (a zipper) says what the
  heap pictures.  Deletion relinks nodes and copies none.  Its fix-up asks whether the near nephew is red where the
  textbook asks whether the far one is black, so with two red nephews it passes through a red-red edge; that case is
  proved with the others.
* **The incremental request parser** (`HttpTypes`, `HttpUrlChar`, `HttpStep`, `HttpRun`, `HttpAsserts`, `HttpFragment`,
  `HttpBulk`, `HttpExecute`, `HttpStream`, `HttpMethod`, `HttpMessage`, `HttpBody`, `HttpDone`).  `HttpStep` says what
  one byte does; `HttpRun` runs it byte by byte and says what a client sees that joins consecutive pieces of one kind of
  data; `HttpExecute` is the parser as it runs, with marks into the buffer, scanning loops and bulk copies.
  `HttpRequest`, with `HttpLine`, `HttpNames`, `HttpLists`, `HttpHeaders` and `HttpHead` below it, says what a request
  is as a text, part by part with its own words and delimiters, and proves that the parser hands over exactly these
  parts; `HttpExample` follows one request.  `HttpUrlText` does the same for the fields of a URL, whose states are in
  `HttpUrlFields` and whose splitter is `HttpUrl`.  The configuration is the one the server uses: requests, strict mode,
  not lenient, the default header limit, callbacks that return 0.
* **The framing protocol and the event loop** (`Framing`, `Requests`, `ServerModel`, `ServerSteps`, `ServerRuns`,
  `Server`, `ServerEffects`, `ServerLoop`).  The frame parser and the receive loop work on a buffer in place.  The event
  loop keeps the id tree as a map, the timer tree as its in-order sequence (insertion behind all that are not later,
  deletion of one node, as the tree's contracts say) and the queues as sequences, with the history as ghost state.
  Bytes from a client go through the request parser, bytes from a backend through the receiver, and requests leave as
  frames.  `ServerRuns` proves what holds over runs of single steps, `ServerEffects` what each event changes and what it
  leaves as it was, and `ServerLoop` that any number of turns of the loop is such a run.
* **The circular queue** (`Queue`): the macros on links embedded in their members.

Where code and intention differ, the model follows the code.  The table of hexadecimal digits lists 128 of its 256
entries, so every byte from 0x80 on is the digit 0 (src/http_parser.c:224).  The test for a tab in a coding or option
list looks at a byte with bit 5 set and never succeeds (src/http_parser.c:1588, 1623), and a later item that is empty or
begins with an underscore ends the reading of the list.  In such a list a comma behind the mere beginning of a known
word, or behind `chunked`, is taken for a letter of that item, so the next item is not read; `ListRead` says exactly
which items count, and `PlainOptions` and `PlainCodings` when all do.  A value that goes on in a further line loses what
its last word would have meant (`FoldedLine`).  The flag of Transfer-Encoding is raised as soon as a name begins with
that word.  An error drops the run of data that is open, so what the client has seen of it depends on the cut of the
stream; `FragmentationIndependence` says exactly how; and the scan of a value leaves the header count, and at a bad byte
the header state, from which it began in its call, so they depend on the cut as `ExecuteAll` says.  The length field of
a frame counts the padding of its head structure although the data begins before it (src/async_server.c:491-500), so
every frame ends in slack; the codec is proved for every size of the padding.

## Model

| member | source | states |
|---|---|---|
| `RedBlackTree.RbTree.LeftRotate` | src/rbtree.c:39-67 | a rotation changes exactly the six links of its pattern, and nothing when there is no right child |
| `RedBlackTree.RbTree.RightRotate` | src/rbtree.c:69-97 | the mirror image |
| `RbShape.RotatedLeft` | src/rbtree.c:39-67 | those link changes turn the heap picture of a tree, seen from any node of it, into the picture of the rotated tree, parent links, root and sentinel included |
| `RbShape.RotateLeftOrder` | src/rbtree.c:39-67 | a rotation keeps the in-order sequence of node identities |
| `RedBlackTree.RbTree.FixInsert` | src/rbtree.c:129-168 | from a tree whose only fault is a red edge above the new node, the loop reaches a red-black tree with the same in-order sequence; it terminates because the depth of the node falls |
| `RbInsert.UncleRedKeeps` | src/rbtree.c:132-137 | recolouring under a red uncle moves the one possible fault two levels up |
| `RbInsert.InnerTurnKeeps` | src/rbtree.c:139-142 | turning an inner child outwards keeps the state of the fix-up |
| `RbInsert.OuterTurnKeeps` | src/rbtree.c:144-146 | the last rotation removes the red edge and keeps equal black heights |
| `RedBlackTree.RbTree.Insert` | src/rbtree.c:99-170 | all invariants kept; the node stands directly behind the last node with a key not greater, so equal keys keep arrival order, and every other node keeps its place |
| `RbDelete.SiblingThere` | src/rbtree.c:266-276 | during the fix-up of a deletion the sibling is never the sentinel |
| `RbDelete.RedSiblingKeeps` | src/rbtree.c:269-274 | a red sibling is turned up; the state is kept and the new sibling is black |
| `RbDelete.BlackNephewsKeep` | src/rbtree.c:276-278 | with two black nephews the sibling turns red and the missing black moves up |
| `RbDelete.NephewsSplit` | src/rbtree.c:276-285 | in the other cases, two red nephews included, the inner rotation (if the near one is red) leaves what the last rotation needs, though two reds may touch in between |
| `RbDelete.LastTurnDone` | src/rbtree.c:280-291 | after the last rotation the tree is red-black except perhaps for the colour of its root |
| `RedBlackTree.RbTree.FixDelete` | src/rbtree.c:266-324 | from a tree with one black missing at the focus, the loop reaches a red-black tree with the same in-order sequence, for both sides and every colouring of sibling and nephews; it terminates |
| `RbDelete.Swapped` | src/rbtree.c:219-255 | relinking the successor into the place of the deleted node, link by link, gives the picture of the tree with the successor there and its right subtree spliced up |
| `RbDelete.ExchangeOrder` | src/rbtree.c:219-255 | that exchange takes exactly the deleted node out of the in-order sequence |
| `RedBlackTree.RbTree.DeleteTwo` | src/rbtree.c:198-327 | deleting a node with two children: no node is copied, the order loses exactly that node, and its links are null |
| `RedBlackTree.RbTree.Delete` | src/rbtree.c:179-327 | all invariants kept; the in-order sequence loses exactly the node, whose links become null; for null, the sentinel or an unlinked node nothing changes |
| `RedBlackTree.RbTree.Search` | src/rbtree.c:329-349 | a node with the key is found exactly when one is in the tree, in at most 2 log2(n+1) steps |
| `RbBalance.HeightBound` | src/rbtree.c:329-349 | two to the height of a red-black tree is at most (n+1) squared |
| `RedBlackTree.RbTree.Min` | src/rbtree.c:351-367 | the first node in the order of the subtree below the given node, so from the root the first of all; null for null, the sentinel and an unlinked node |
| `RedBlackTree.RbTree.Next` | src/rbtree.c:369-394 | the node behind in the order, or null at the end |
| `Sweep.SweepExpired` | src/async_server.c:743-773 | fetching the next node and then deleting removes from both trees exactly the connections with a key not greater than now, in key order; all remaining keys are greater |
| `Sweep.DestroyAll` | src/async_server.c:849-871 | the closing loop visits every connection once, in order, and empties the id tree; the timer tree loses exactly their nodes, and is empty when every timer node belongs to a connection |
| `HttpRun.EmitTwice` | src/http_parser.c:104-128 | handing a run over in two pieces tells a client no more than in one |
| `HttpAsserts.StepKeeps` | src/http_parser.c:717-2109 | one byte: every assertion of its branch holds, and the invariant is kept unless the byte is an error |
| `HttpAsserts.SaneAlways` | src/http_parser.c:641-2148 | over every run the invariant holds until the first error; it includes that a chunked body has no accepted Content-Length and that a body of declared length has no transfer coding |
| `HttpAsserts.AssertionsAlwaysHold` | src/http_parser.c:1303-1368 | every assertion (known header states, nread 1 at a chunk size, the chunked flag in chunks, lengths neither 0 nor the absent marker in bodies) holds at every byte of every stream, and every matcher index is in bounds |
| `HttpFragment.DispatchTidy` | src/http_parser.c:2128-2132 | at most one run of data is open at a time, and which one is fixed by the state |
| `HttpFragment.FragmentationIndependence` | src/http_parser.c:685-708 | any cut of a stream into non-empty pieces gives the parser, errno, count and client view of one call on the whole; on an error the client has been handed exactly what lies before the last cut of the run that is lost, so its view is equal if and only if the stream is not cut behind a byte of that run |
| `HttpFragment.CutWithinIs` | src/http_parser.c:685-708 | the stream is cut there if and only if the piece with the failing byte begins there or later |
| `HttpFragment.ErrorWithholds` | src/http_parser.c:2134-2147 | an input for which the view differs: a new parser, the piece `GET /`, and a tab on its own |
| `HttpExecute.ScanField` | src/http_parser.c:1254-1388 | the scan of a field name with its fast path equals the byte-by-byte scan |
| `HttpExecute.FastValue` | src/http_parser.c:1508-1528 | the fast run of a value stands where the byte-by-byte scan stands, unless it was cut at the header limit |
| `HttpExecute.SkipTooLong` | src/http_parser.c:1510-1530 | the byte skipped by a cut run lies beyond what can be accepted |
| `HttpExecute.ScanValue` | src/http_parser.c:1480-1703 | the scan of a value equals the byte-by-byte scan or the value is too long to be accepted |
| `HttpExecute.HttpParser.BodyStep` | src/http_parser.c:1937-1971 | the bulk copy of a body of declared length does what its bytes do one by one |
| `HttpExecute.HttpParser.ChunkStep` | src/http_parser.c:2071-2092 | the bulk copy of a chunk does what its bytes do one by one |
| `HttpExecute.HttpParser.PerformActs` | src/http_parser.c:96-138 | marks as positions in the buffer and callbacks on slices of it refine runs of bytes |
| `HttpExecute.HttpParser.Leftovers` | src/http_parser.c:2114-2140 | at the end of the buffer the one open run is handed over |
| `HttpExecute.HttpParser.Execute` | src/http_parser.c:641-2148 | a call does what the byte-by-byte run does: all fields, errno, the client view and the count, also on an error, where the header count and state are those that the scan of a value has stored; and it fails when that run exceeds the header limit |
| `HttpStream.ExecuteAll` | src/http_parser.c:641-2148 | the same for successive calls on the pieces of a stream against one run on the whole: exactly which fields and which client view an error leaves for each cut |
| `HttpStream.KeptAgrees` | src/http_parser.c:1480-1503 | the fields left by an error are those of the byte-by-byte run if and only if the failing byte is not in a value, or is the first that its scan looks at |
| `HttpBulk.FieldRun` | src/http_parser.c:1370-1376 | a run of token bytes, and when it exceeds the header limit |
| `HttpBulk.ValueRun` | src/http_parser.c:1698-1702 | a run of value bytes, and when it exceeds the header limit |
| `HttpBulk.BodyRun` | src/http_parser.c:1937-1971 | n bytes of a body of declared length: delivered as they are, and with the last one the message completes |
| `HttpMessage.ContentLengthExact` | src/http_parser.c:1440-1447 | digits of a Content-Length are accepted if and only if the number without its last digit is at most (2^64-11)/10; then the length is the number they spell and below the absent marker |
| `HttpMessage.UnhexIs` | src/http_parser.c:224-233 | the table gives every hexadecimal digit, in either case, its value, -1 to the other bytes below 0x80, and 0 from there on |
| `HttpMessage.ChunkSizeExact` | src/http_parser.c:1989-2039 | the same for hexadecimal chunk sizes, bytes from 0x80 on counting as the digit 0 |
| `HttpBody.OneChunk` | src/http_parser.c:1989-2109 | one encoded chunk, with any spelling of its size and any extension, is decoded to a chunk header notice, its data and a chunk complete notice |
| `HttpBody.ChunkedRoundTrip` | src/http_parser.c:1989-2109 | for every split into chunks, every spelling and every cut into pieces, the body callbacks receive exactly the body, and the message completes once, at the end |
| `HttpBody.EveryChunk` | src/http_parser.c:1989-2039 | every chunk below the limit has an accepted encoding |
| `HttpBody.DeclaredLengthDelivered` | src/http_parser.c:1937-1987 | a body of declared length is delivered to the byte under every cut, and then the message is complete |
| `HttpMethod.GuessSound` | src/http_parser.c:969-1019 | the bytes consumed of a method are the beginning of the string of the assumed method, across every correction |
| `HttpMethod.GuessComplete` | src/http_parser.c:946-1019 | the corrections find every one of the 34 methods |
| `HttpMethod.MethodRecognised` | src/http_parser.c:925-1019 | a word and a space are accepted if and only if the word is a method string, and exactly that method is reported |
| `HttpMethod.WordsRecognised` | include/http_parser.h:163-206 | each of the 34 words, written out, is read as the method of its number, and the message begins |
| `HttpMethod.OtherWordsRefused` | src/http_parser.c:925-1019 | every other word is an invalid method |
| `HttpLine.LineRead` | src/http_parser.c:925-1202 | line ends, one of the 34 words, spaces, a URL that is well-formed byte by byte, and a version or none: the message begins, the URL callbacks receive exactly the URL, and method and version are those of the line |
| `HttpNames.NameRead` | src/http_parser.c:1204-1388 | a name and its colon: the field callbacks receive exactly the name, and the parser knows it if and only if it spells, in any case, `connection`, `proxy-connection`, `content-length`, `transfer-encoding` or `upgrade` |
| `HttpNames.BadNameRefused` | src/http_parser.c:1383-1389 | a byte that is neither a token byte nor the colon is refused |
| `HttpLists.ListRead` | src/http_parser.c:1577-1697 | a Connection or Transfer-Encoding value raises exactly the flags of the items that are read and spell `keep-alive`, `close` or `upgrade`, or at the end `chunked`; which items are read is told from the items alone |
| `HttpLists.PlainOptions` | src/http_parser.c:1612-1697 | in a list in which no item is empty or the mere beginning of a known word, an option counts if and only if an item spells it |
| `HttpLists.PlainCodings` | src/http_parser.c:1577-1610 | in such a list of codings `chunked` counts if and only if it is the last |
| `HttpHeaders.LengthRun` | src/http_parser.c:1533-1575 | a Content-Length value is accepted if and only if it is digits within the limit and then spaces, and none was declared before; the length is what the digits spell |
| `HttpHeaders.HeaderRead` | src/http_parser.c:1204-1791 | a header line, with any blanks before its value, an empty value or either line end: the callbacks receive exactly name and value, and flags and length are those that the header means, or it is refused |
| `HttpHeaders.BadByteRefused` | src/http_parser.c:1480-1503 | a byte that no value may contain is refused |
| `HttpHeaders.FoldedLine` | src/http_parser.c:1717-1755 | a line that begins with a blank continues the value: the client sees the lines joined; what the last word of a list would have meant is forgotten |
| `HttpHead.HeadersRead` | src/http_parser.c:1204-1791 | headers in a row: their names and values reach the callbacks in order, and the flags are those that some header asks for; refused if and only if a length is no number or declared twice |
| `HttpRequest.HeadRead` | src/http_parser.c:925-1935 | a whole head: refused if and only if its lengths do not fit, a length and a coding are declared together, or a coding does not end in `chunked` without a hand-over; otherwise the content is found by the length, by chunks, or there is none |
| `HttpRequest.RequestRead` | src/http_parser.c:641-2148 | from line to last byte: the message begins and completes once, between them come exactly the URL, the headers and the content; the connection stays open if and only if version and options say so (src/http_parser.c:2182-2197), and is handed over if and only if CONNECT or Upgrade ask for it |
| `HttpRequest.RowRead` | src/http_parser.c:641-2148 | requests in a row on one connection, each but the last keeping it open, are all read, each with its own callbacks |
| `HttpRequest.ClosedByte` | src/http_parser.c:719-727 | a connection that does not stay open takes nothing more but line ends |
| `HttpRequest.RequestsServed` | src/http_parser.c:641-2148 | from a new parser, under every cut of the stream into pieces: every request in a row reaches the callbacks exactly, and every byte is consumed |
| `HttpExample.PostHello` | src/http_parser.c:641-2148 | a POST with a Content-Length, written out as its bytes, under every cut: its URL, header and body are handed over, it completes once, and the next request is awaited |
| `HttpRun.HeadLimit` | src/http_parser.c:154-161 | a byte of a head behind the limit of 81920 overflows it, and none before |
| `HttpDone.DoneOwesNothing` | src/http_parser.c:2570-2576 | a request is done if and only if every message begun has been completed; otherwise exactly one has not |
| `HttpUrlFields.UrlOrdered` | src/http_parser.c:2416-2485 | the fields of a URL come in their order without gaps |
| `HttpUrlFields.HostOrdered` | src/http_parser.c:2328-2391 | so do user info, host and port |
| `HttpUrlText.UrlStates` | src/http_parser.c:493-639 | the states of a URL live exactly while every byte may stand where it does between its delimiters, and are those of its part: a scheme is letters up to `://`, the server goes on to the first `/` or `?`, the path to the first `?` or `#`, the query to the first `#` |
| `HttpUrlText.WellServerIs` | src/http_parser.c:2247-2408 | the states of a host end well if and only if it is a user info up to the first `@`, a host, in brackets or up to the colon, and a port of digits behind the colon |
| `HttpUrlText.AcceptedIsWell` | src/http_parser.c:2416-2536 | a URL is accepted by the states if and only if it is well-formed, as told from its bytes alone |
| `HttpUrlText.FieldsAreParts` | src/http_parser.c:2416-2485 | and then each field is exactly the part between its delimiters, set if and only if that has bytes |
| `HttpUrl.ParsedUrl.ParseHost` | src/http_parser.c:2328-2408 | fails exactly when the server part does not end well; otherwise user info, host and port are exactly the bytes on which the machine is in them |
| `HttpUrl.ParsedUrl.Split` | src/http_parser.c:2416-2485 | fails exactly when a byte may not stand where it does; otherwise the fields are exactly the parts between their delimiters, the server as one, and an `@` in it is noted |
| `HttpUrl.ParsedUrl.ReadPort` | src/http_parser.c:2508-2532 | the value of the digits, refused if and only if it exceeds 65535 |
| `HttpUrl.ParsedUrl.ParseUrl` | src/http_parser.c:2416-2536 | accepts exactly the well-formed URLs: scheme, server, visible bytes behind them, for CONNECT host and port alone, and a port of 16 bits; then a field is set if and only if there are bytes between its delimiters, and is exactly these; the fields are in order and the port is the value of its digits |
| `Framing.FrameParser.Execute` | src/async_server.c:977-1008 | done exactly when what was read completes one whole frame; nothing is read only to complete an empty frame; otherwise all of the data is read and state and remaining length fit the prefix |
| `Framing.FramesConserve` | src/async_server.c:388-431 | the frames of a stream and its unfinished end are the stream |
| `Framing.FramesExtend` | src/async_server.c:388-431 | what more bytes complete depends only on the unfinished end that is kept |
| `Framing.Receiver.Scan` | src/async_server.c:391-429 | the driver loop hands on all frames in the buffer and stops at the unfinished end; it terminates also when an empty frame makes a call read nothing |
| `Framing.Receiver.Receive` | src/async_server.c:388-431 | after every read the frames handed on are those of all bytes received, each of them whole, and the buffer holds exactly the unfinished end |
| `Framing.RoomLeft` | src/async_server.c:388-388 | the kept end fills the buffer only for a frame of length 65535 |
| `Framing.ReceiveStream` | src/async_server.c:388-431 | a stream without such frames is received under every cut |
| `Framing.Sender.Write` | src/async_server.c:476-500 | what is sent is the encoding of id, clock, type and data, each at its place in the bytes, with whatever the buffer held as slack |
| `Framing.EncodeBytes` | include/async_server.h:51-56 | in a frame lie the length of the rest in two bytes, the most significant first, id and clock in eight each, the least significant first, the kind in one, and then the data |
| `Framing.DecodeBytes` | src/async_server.c:393-410 | and from there a receiver takes them, whatever frame it is |
| `Framing.DecodeEncode` | src/async_server.c:397-410 | a decoded frame gives back id, clock, type and data, for every size of the head structure |
| `Framing.RoundTrip` | src/async_server.c:388-431 | the frames of any messages followed by the beginning of another decode to exactly these messages in order, and that beginning is kept |
| `Framing.ReceiveMessages` | src/async_server.c:388-431 | from end to end: encoded with any padding, cut in any way and received, the messages are decoded in order, and the buffer keeps the unfinished end |
| `ServerSteps.AcceptHttpKeeps` | src/async_server.c:278-371 | a client more: a fresh id, in the timer tree unless its timeout is -1 |
| `ServerSteps.AcceptReaderKeeps` | src/async_server.c:561-607 | a connection for what a backend sends |
| `ServerSteps.AcceptWriterKeeps` | src/async_server.c:609-665 | a connection for what is sent to it, which joins the worker queue |
| `Requests.ReadOn` | src/async_server.c:229-252 | the parser of a client has read what its buffer holds; when it is done, a new parser is done on these bytes, to the last of them |
| `ServerSteps.ReceiveKeeps` | src/async_server.c:203-253 | bytes from a client: a bad request is closed, a complete one joins the task queue and fits a frame |
| `ServerSteps.DispatchKeeps` | src/async_server.c:476-507 | a dispatched request is no task any more and is not dispatched again |
| `ServerSteps.ReplyKeeps` | src/async_server.c:403-424 | a reply to an id that was sent changes only the connection of that id, if it is still there |
| `ServerSteps.HearKeeps` | src/async_server.c:386-431 | bytes from a backend: the replies in all frames that they finish, and the unfinished end is kept |
| `ServerSteps.CloseKeeps` | src/async_server.c:802-819 | a closed connection leaves both trees and its queue, the count falls by one, and the other requests keep their order |
| `ServerSteps.AnswerKeeps` | src/async_server.c:171-201 | the reply is written to the client of its id, once |
| `ServerRuns.AlwaysInv` | src/async_server.c:718-835 | over every run: the trees, the queues, the count and the history stay right |
| `ServerRuns.AlwaysHeard` | src/async_server.c:388-431 | over every run: each reply was carried by a frame in the bytes received from a backend, and the buffer of its connection is the unfinished end of them |
| `ServerRuns.OnlyOwnReplies` | src/async_server.c:403-422 | over every run: what a client was sent is the payload of a frame with its own id in the bytes that a backend has sent, its request was dispatched before, and nothing is sent twice |
| `ServerRuns.DispatchedInOrder` | src/async_server.c:476-507 | over every run: requests are dispatched at most once, in the order of their completion, and each is bytes on which a new parser is done |
| `ServerRuns.GoneForEver` | src/async_server.c:345-346 | once the connection of an id is gone no run brings it back or writes to it |
| `ServerRuns.LateReplyReachesNobody` | src/async_server.c:403-424 | a late reply to a closed or timed-out connection changes no connection and no queue, and is never written |
| `ServerRuns.IdsIncrease` | src/async_server.c:591-592 | every new id is greater than all before it |
| `AsyncServer.SweptIs` | src/async_server.c:743-773 | after the sweep exactly the expired clients are gone and all remaining deadlines are to come |
| `AsyncServer.BatchIsHead` | src/async_server.c:476-525 | what a worker sends is the head of the task queue in order, at most 50, and all of that unless a send fails |
| `AsyncServer.SweptAwake` | src/async_server.c:743-773 | the sweep does not put workers to sleep |
| `AsyncServer.WokenAwake` | src/async_server.c:824-834 | after the wake-up every worker is armed if there are tasks |
| `AsyncServer.WaitBound` | src/async_server.c:766-770 | a finite wait is at most the timeout of the client with the earliest deadline |
| `AsyncServer.Server.Accept` | src/async_server.c:278-371 | a client is stamped with the time at which it is accepted and joins both trees |
| `AsyncServer.Server.ReceiveHttp` | src/async_server.c:203-276 | the buffer grows and the bytes go through the parser of the client: an error closes it, a complete request is queued, otherwise it reads on |
| `AsyncServer.Server.ReceiveLocal` | src/async_server.c:373-432 | the bytes go through the receiver of the backend, and each frame that has arrived goes to the connection of its id |
| `AsyncServer.WireGrows` | src/async_server.c:491-500 | the frames sent decode to the requests dispatched, one by one |
| `AsyncServer.Server.SendTask` | src/async_server.c:477-507 | the frame of the first task is built and sent, and the task leaves the queue |
| `AsyncServer.Server.SendLocal` | src/async_server.c:455-530 | no task: the worker is disarmed; otherwise up to 50 tasks are sent and the worker goes to the end of the queue, unless a send is refused or fails |
| `AsyncServer.Server.SendHttp` | src/async_server.c:171-201 | the reply is written and the client closed |
| `AsyncServer.Server.CloseApp` | src/async_server.c:802-819 | out of both trees and its queue |
| `AsyncServer.Server.Sweep` | src/async_server.c:736-771 | the expired clients are closed, and the wait is what remains to the earliest deadline |
| `AsyncServer.Server.Wake` | src/async_server.c:824-834 | every worker is armed if there are tasks |
| `AsyncServer.Server.Turn` | src/async_server.c:731-835 | one turn: no wake-up is lost at the wait, and the new state is that of sweep, events and wake-up one after the other |
| `ServerEffects.ReplyWaits` | src/async_server.c:189-194 | a reply that cannot be sent now: nothing changes |
| `ServerEffects.ReplyFails` | src/async_server.c:195-200 | a reply that cannot be sent at all: its client is closed, nothing is written, and every other connection and queue is as before |
| `ServerEffects.ReplySent` | src/async_server.c:178-187 | a reply sent: exactly that is written, and the client is closed |
| `ServerEffects.HungUp` | src/async_server.c:802-819 | a hang-up closes that connection and no other |
| `ServerEffects.ClientHeard` | src/async_server.c:203-253 | bytes from a client, by a run of a new parser over all that it has sent: if the parser refuses them the client is closed; if it is done the request is queued with the time, and otherwise the buffer holds all of it |
| `ServerEffects.RoomToRead` | src/async_server.c:210-221 | the buffer of a request doubles when it is full, up to 32768 bytes |
| `ServerEffects.WorkerServed` | src/async_server.c:455-530 | room at a worker: the first tasks go out in order, at most 50 and as long as sends succeed; then it goes behind the others, stays where it is, or is closed |
| `ServerEffects.ClientJoined` | src/async_server.c:278-371 | a new client has a new id, the deadline of its timeout, and changes nothing else |
| `ServerEffects.BackendJoined` | src/async_server.c:529-669 | so has each of the two connections of a backend |
| `ServerEffects.BackendHeard` | src/async_server.c:373-432 | bytes from a backend: behind what was kept before they are cut by the length bytes into frames and an unfinished end; every client gets the last reply whose id bytes are its own, and nobody else anything |
| `ServerEffects.SweepCloses` | src/async_server.c:743-765 | the sweep closes exactly the clients whose deadline has passed |
| `ServerEffects.EarliestDeadline` | src/async_server.c:766-773 | the wait ends at the earliest deadline |
| `ServerEffects.WakesWorkers` | src/async_server.c:824-834 | the wake-up arms every worker when there are tasks, and changes nothing else |
| `ServerLoop.TurnIsRun` | src/async_server.c:735-834 | a turn of the loop is a run of the steps |
| `ServerLoop.LoopIsRun` | src/async_server.c:735-834 | so is any number of turns |
| `ServerLoop.NoLostWakeUp` | src/async_server.c:824-834 | over any number of turns: at every wait all workers are armed if there are tasks, and all deadlines are to come |
| `ServerLoop.LoopServesOwn` | src/async_server.c:735-834 | over any number of turns: clients are sent only what backends have sent under their id, once; requests are dispatched once, in order and complete |
| `ServerLoop.Loop` | src/async_server.c:735-834 | the loop of the server reaches the state that these turns describe |
| `Queue.Init` | include/queue.h:22-24 | a link on its own |
| `Queue.Empty` | include/queue.h:26-27 | empty if and only if there are no members |
| `Queue.Next` | include/queue.h:59-60 | the member behind, and from the last the sentinel |
| `Queue.InsertHead` | include/queue.h:30-34 | the new member is the first, the others keep their order |
| `Queue.InsertTail` | include/queue.h:40-44 | the new member is the last, the others keep their order |
| `Queue.Remove` | include/queue.h:66-70 | the member is on its own, the others keep their order; a link on its own stays so |
| `Queue.Split` | include/queue.h:74-80 | the members from the given one on go to the other queue |
| `Queue.Add` | include/queue.h:83-87 | the members of the other queue follow behind |

## Left out

- Sockets, epoll, `accept`, `dup`, signals, `longjmp`, logging, time formatting and the id file: arriving bytes, events and clock readings are inputs of the steps.
- Allocation failures, the spare descriptor for `EMFILE`, and partial writes: the code takes any positive `send` as complete, and the model sends all or nothing.
- Frames shorter than their head: decoding such a frame subtracts the head size from less, so `Decode` asks for a frame at least as long as its head.  Splitting a stream into frames is proved for all lengths.
- HttpExecute.HttpParser.Execute: does not give the errno, the fields, the count and the client view when the byte-by-byte run exceeds the header limit, because the scan of a value may report a bad byte before the count.
- HttpExecute.HttpParser.Execute: takes the buffer as a sequence of any length; the 32-bit header count of the original is added to once per scan, which is exact for buffers below 4 GB less the limit.
- HttpStream.ExecuteAll: asks that no message ends in an upgrade, as no caller here continues after one.
- HttpUrl.ParsedUrl.ParseUrl: asks for a buffer below 65536 bytes, because offsets and lengths of the original are 16 bits wide.
- HttpHeaders.HeaderRead: takes a value on one line; `FoldedLine` adds further lines for all but Content-Length, and for a list only what becomes of its last word.
- HttpRequest.RequestRead: takes chunked contents without trailers; the end of such a content is `HttpBody.TrailerEnds`.
- HttpRequest.RowRead: asks of each head two bytes less than the limit, because the line ends behind a chunked content count against the head that follows.
- Response parsing, parsing of either kind, pausing, failing callbacks and lenient mode, none of which the server uses.
- That a finished parser has seen a request at all: after nothing but line ends it still reports done.
- Hang-ups of listening sockets: the loop would then count a connection less that it never counted.
- ServerRuns.OnlyOwnReplies: assumes that a backend sends frames at least as long as their head, that it replies only to ids that it was sent, and that ids do not run out.
- The event loop holds the two trees, the two queues, and the parser and buffer of each connection as values.  That the heap structures behave like them is what the contracts of the tree, of `Sweep` and of `Queue` say, but they are not joined in one heap; for each read or send the parser, receiver or sender of the connection is an object made from these values.
- The closing of the whole server, beyond the loop over its connections, and adding listening sockets' addresses.
- Names of statuses and errors, version numbers, `src/server.c`, and `src/echo.c`, which repeats the framing loop.
