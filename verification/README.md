# Cutelyst, modelled and verified in Dafny

Cutelyst is a web framework with its own HTTP, FastCGI, HTTP/2 and WebSocket server and an epoll event
loop. This project models the parts of it where a wrong branch is hard to see in one function, and
proves what they promise over every input, every run or every reading pattern. `dafny verify
dfyconfig.toml` checks all of it.

The program's classes are classes here, with their fields updated by methods; each method is proved
against a function of its inputs or of the old state, and the promises are proved about that function,
or kept as an invariant by every method.

- **Chained routing** (`Slashes`, `ChainedRouting`, `ChainedLineage`, `ChainedChoice`, `ChainedDispatcher`,
  `Arguments`): the tables that registration fills, the recursive search for the best chain, the decoding
  of its arguments, and the walks back from an action. The search is exact and optimal for arbitrary
  tables, cyclic `Chained` attributes included, because every link takes at least one part of the path;
  `ChainedChoice` determines which of several equally good chains it takes.
- **Path dispatch** (`RequestPath`, `PathDispatch`, `PathChoice`): a request's path is unescaped in place,
  and the loop that takes parts off it refines a rule that names the chosen action outright, with the chained
  dispatcher above; `PathChoice` tells the rule from the registered actions alone.
- **Suspendable dispatch** (`DispatchPlan`, `DispatchCourse`, `SuspendableDispatch`): actions are an oracle
  giving return value, references still held and detachment for each call; the event loop chooses the
  releases. The request ends with the run of its plan whatever the releases are, and `DispatchCourse` tells
  the calls of that run one by one from what each of them did.
- **Multipart bodies** (`Multipart`, `MultipartParser`, `MultipartRoundTrip`, `Uploads`): a buffered
  state machine that carries an overlap between reads against a parser that sees the whole body, which
  in turn inverts an encoder (RFC 2046, section 5.1.1).
- **WebSocket** (`WebSocketFrames`, `ProtocolWebSocket`, `WebSocketMessages`): the four-phase receiver
  with in-place unmasking against a receiver of whole phases, and whole messages, fragmented and
  interleaved with control frames, delivered intact (RFC 6455, sections 5.2 to 5.5).
- **Epoll events** (`EventLifetime`, `EventDispatcher`): an object's address is its key in the map of
  live objects, so that a use after `delete` would be a failed lookup. Callbacks do anything the program
  may do, nested event loops included. `Timers` has the rounding of coarse timers.
- **HTTP/2** (`HuffmanTable`, `Huffman`, `HpackInteger`, `HpackTable`, `Http2`): the code table of
  RFC 7541 as the encoder's table lists it, shown to be a complete prefix code; the nibble automaton,
  each of whose 256 states is an inner node of the code tree and whose entries are computed from the
  code; integers; the dynamic table; stream identities, continuation and the window ledger (RFC 7540).
- **Query strings, chunked responses, FastCGI** (`QueryString`, `ChunkedOutput`, `FastCgi`): an in-place
  decoder and two printers, each with a reader that undoes it.

Some promises do not hold of the code as it stands. Each is stated with its exact condition:

- A URI built by `uriForAction` need not be matched: a link without a number of captures above the end
  point swallows the arguments (`UriIsMatched`, `UriBelowEndPointIsLost`). Nor is a matched path always the
  URI of its action (`MatchUri`, `MatchedWithoutUri`), and the walk up to the root ends if and only if the
  action has a line there, which two actions chained to each other have not (`LineIfWalkEnds`,
  `CycleHasNoLine`).
- An action that is filed under a private name that another has leaves that one filed but not to be found by
  its name. Names that were registered are not passed on again (Cutelyst/dispatcher.cpp:51), but one that was
  refused after it had been filed is (`RegisterAction`, `FilingKeepsCoherent`, `RefusedActionLosesItsName`).
- Of two chains that leave as many parts the one with fewer captures and more path parts need not win: the
  comparison leaves out the own part of the link it begins with (`Succession`, `ChoiceStands`,
  `MoreDefinedLoses`).
- The arguments of a chained action are decoded a second time, after the path has been; one stays as it is if
  and only if it holds no escape by then (`ArgumentKept`, `UnescapedTwice`).
- Once a request has been suspended, a failing action drops the `End` action, which it does not do
  otherwise, and leaves it in the queue of the finalized request (`SuspensionDropsEnd`, `CourseOfRun`,
  `NothingLeft`, `Serve`).
- An upload ends two bytes before the next delimiter whatever those bytes are, so it loses data unless just
  a line end stands there (`UploadEndsTwoBytesBefore`, `WithoutLineEndBytesAreLost`), and it is cut at a
  delimiter inside the data (`UploadEndsWithItsData`).
- A path with an empty first part cannot be told from its last parts once they are taken off
  (`PartsRejoin`). Doubled slashes are removed from a request's path, so this takes an escaped slash
  beside another, as in `/%2Fa` (`DoubledIfBeside`, `EscapedSlashIsLost`).
- A request body whose length was announced is accepted over HTTP/2 if and only if the first DATA frame
  carries all of it (`Connection.ParseBody`, `TwoHalves`).
- The DATA frame that ends a response's stream is not charged to any window, and there is such a frame if
  and only if the windows had more room than the data left; data that just fit are charged, and nothing
  ends the stream (`Connection.WriteOnce`, `Connection.DoWrite`). A window that SETTINGS made negative is
  filled by a frame of negative length (`NegativeFrame`).
- A response that announces chunks but is never written to is sent whole, which a receiver of chunks takes
  for it if and only if the body passes for a last chunk (`Respond`, `UnwrittenIsNotReceived`).
- Query pairs of an empty name and an empty value are lost (`EncodedIsRead`, `NothingEmpty`), and a
  FastCGI pair of this kind is refused if and only if it comes last (`PairsRead`).
- An upload can be moved to before its start, from where it reads bytes that are not its own
  (`UploadFile.Seek`, `ReadBeforeStart`).
- An integer of 65536 or more wraps around (`SendAndReceive`).
- A very coarse timer of less than a second has a positive delay only in the second half of a second
  (`TimerInfo.CalculateNextTimeout`).

## Model

| member | source | states |
|---|---|---|
| Slashes.SplitJoin | Cutelyst/dispatchtypechained.cpp:384-399 | splitting a joined path gives the parts back when none holds a slash |
| ChainedRouting.SearchIsExact | Cutelyst/dispatchtypechained.cpp:360-474 | the search returns nothing if and only if no registered chain matches; what it returns matches; no matching chain leaves fewer parts |
| ChainedRouting.BestMatchGood | Cutelyst/dispatchtypechained.cpp:360-474 | every result is a registered chain below the parent, links before an end point, with its captures and leftover parts |
| ChainedRouting.BestMatchOptimal | Cutelyst/dispatchtypechained.cpp:360-474 | for each matching chain there is a result, which leaves no more parts |
| ChainedChoice.ChoiceSucceeds | Cutelyst/dispatchtypechained.cpp:384-470 | in the order of trying, the choice passes from the first chain offered to each next one that leaves fewer parts or, leaving as many, has below its first action fewer captures and more path parts than the other has altogether, or is an end point that says it takes no arguments and leaves nothing |
| ChainedChoice.SameChoice | Cutelyst/dispatchtypechained.cpp:384-470 | there is only one such succession: whoever chooses by it chooses the same |
| ChainedChoice.LongestPrefixWins | Cutelyst/dispatchtypechained.cpp:429-438 | if the longest prefix at which a chain that leaves the fewest parts begins has only such chains without captures, the choice begins there |
| ChainedChoice.NoArgumentsWin | Cutelyst/dispatchtypechained.cpp:453-465 | under the whole path the last end point registered with no arguments wins |
| ChainedChoice.ChoiceStands | Cutelyst/dispatchtypechained.cpp:425-441 | where every link has a number of captures, no other offer displaces the choice, and it has at least as many path parts, and at most as many captures, as the first that leaves so few |
| ChainedChoice.SpecialChosen | Cutelyst/dispatchtypechained.cpp:429-438 | a table in which a longer part without captures wins over a shorter one with a capture |
| ChainedChoice.MoreDefinedLoses | Cutelyst/dispatchtypechained.cpp:425-441 | a table in which a chain with more path parts and fewer captures is not chosen |
| ChainedLineage.LineageUnique | Cutelyst/dispatchtypechained.cpp:321-345 | the line from an action up to the root is determined by the action |
| ChainedLineage.MatchIsLineage | Cutelyst/dispatchtypechained.cpp:321-345 | a chain found from the root is the line of its last action |
| ChainedLineage.LineIfWalkEnds | Cutelyst/dispatchtypechained.cpp:321-345 | an action has a line if and only if the way up from it ends |
| ChainedLineage.CycleHasNoLine | Cutelyst/dispatchtypechained.cpp:321-345 | two registered actions from which the way up never ends |
| ChainedLineage.MatchReassembles | Cutelyst/dispatchtypechained.cpp:377-446 | path segments, captures and leftover parts put back together are the path if and only if every action above the end point is a link with a number of captures |
| ChainedLineage.MatchUri | Cutelyst/dispatchtypechained.cpp:264-319 | the URI of a matched action with the captures is the consumed part of the path if and only if every action above it is a link with a number of captures |
| ChainedLineage.MatchedWithoutUri | Cutelyst/dispatchtypechained.cpp:405-425 | a registered table and a path that is matched, although the action and its captures have no URI |
| ChainedLineage.UriIsMatched | Cutelyst/dispatchtypechained.cpp:264-319 | a URI built with captures, plus accepted arguments, is matched by the action's own line leaving just the arguments if and only if every ancestor is a link with a number of captures; the search then leaves no more |
| ChainedLineage.UriBelowEndPointIsLost | Cutelyst/dispatchtypechained.cpp:405-425 | a registered table and a URI where the condition fails and the action is not found |
| ChainedDispatcher.DispatchTypeChained.RegisterAction | Cutelyst/dispatchtypechained.cpp:197-262 | for any tables without empty parts: which attributes are refused, which leave the action filed all the same, and the whole new tables; the action is the newest among its siblings; coherent tables stay so if and only if no other action had its private name |
| ChainedDispatcher.RefusedActionLosesItsName | Cutelyst/dispatchtypechained.cpp:222-262 | an action refused after it was filed, and the next of its name, after which the tables no longer agree |
| ChainedDispatcher.DispatchTypeChained.RecurseMatch | Cutelyst/dispatchtypechained.cpp:360-474 | the loops over prefixes, longest first, and siblings compute the best match, chosen by succession, for cyclic tables too and for those that no longer agree |
| ChainedDispatcher.DispatchTypeChained.TryActions | Cutelyst/dispatchtypechained.cpp:402-470 | the inner loop over the actions under one prefix |
| ChainedDispatcher.DispatchTypeChained.Match | Cutelyst/dispatchtypechained.cpp:161-195 | only whole paths are tried; the result is the best chain, chosen by succession, with the parts it leaves decoded as arguments; in coherent tables it is the line of its end point, and its URI is the consumed part of the path if and only if all its ancestors are links with a number of captures |
| Arguments.DecodePercentEncoding | Cutelyst/utils.cpp:118-168 | the loop decodes an argument in place; without an escape nothing changes, plus signs included |
| Arguments.EscapedIsReceived | Cutelyst/utils.cpp:118-168 | text that was escaped, in any way and either case, is received as it was if and only if something was escaped or no space was written as a plus sign |
| Arguments.ThereAndBack | Cutelyst/utils.cpp:124-124 | characters beyond Latin-1 become question marks, all others stay |
| Arguments.ArgumentKept | Cutelyst/dispatchtypechained.cpp:177-182 | decoding leaves an argument as it is if and only if it holds no escape |
| ChainedDispatcher.DispatchTypeChained.UriForAction | Cutelyst/dispatchtypechained.cpp:264-319 | the walk upwards gives the URI of the action's line, or nothing on too few or too many captures |
| ChainedDispatcher.DispatchTypeChained.ExpandAction | Cutelyst/dispatchtypechained.cpp:321-345 | the walk upwards gives the action's line |
| ChainedDispatcher.RootMatch | Cutelyst/dispatchtypechained.cpp:161-195 | for coherent tables the best match from the root has all of these properties at once |
| ChainedDispatcher.FilingKeepsCoherent | Cutelyst/dispatchtypechained.cpp:222-245 | filing an action under its parent and part keeps the two tables in agreement, with no empty part, if and only if no other action has its private name |
| PathDispatch.DispatchTypePath.RegisterPath | Cutelyst/dispatchtypepath.cpp:148-189 | a second action of one arity under a path is refused; otherwise it is added, and arities stay distinct and sorted |
| PathDispatch.DispatchTypePath.Match | Cutelyst/dispatchtypepath.cpp:70-103 | the action of just this arity is taken; one that takes any arguments only if the request has no action yet |
| PathDispatch.Dispatcher.PrepareAction | Cutelyst/dispatcher.cpp:183-217 | the request gets the deepest outright choice, else the deepest action of any arity, else nothing |
| PathChoice.ChoiceFits | Cutelyst/dispatcher.cpp:183-217 | what is chosen is an action registered under a prefix of the path, with the parts behind it as arguments and as many as it takes, or any number; or a chain that matches the whole path |
| PathChoice.ExactWins | Cutelyst/dispatcher.cpp:183-217 | where no chain matches, the action of the longest prefix that takes just the parts behind it is chosen |
| PathChoice.AnyWins | Cutelyst/dispatcher.cpp:183-217 | where no action takes just the parts behind its prefix either, that of the longest prefix that takes any number of arguments is |
| PathChoice.ChainWins | Cutelyst/dispatcher.cpp:183-217 | where some chain matches, one that does is chosen, unless an action of the whole path without arguments is |
| PathDispatch.Dispatcher.AskAll | Cutelyst/dispatcher.cpp:193-200 | the dispatchers are asked in order until one matches exactly |
| PathDispatch.Dispatcher.Ask | Cutelyst/dispatchtypechained.cpp:161-195 | chains choose only while no part has been taken off, and choose the best chain |
| PathDispatch.TakenOff | Cutelyst/dispatcher.cpp:207-215 | cutting at the last slash takes exactly one part off the path and puts it in front of the arguments |
| PathDispatch.PartsRejoin | Cutelyst/dispatcher.cpp:183-217 | prefix and arguments rejoin to the path if and only if no empty first part has become the root |
| RequestPath.SetPath | Cutelyst/enginerequest.cpp:202-265 | unescaping in place gives the path of the raw bytes; the write position never passes the read position |
| RequestPath.DoubledIfBeside | Cutelyst/enginerequest.cpp:202-265 | a request's path holds two slashes in a row if and only if an escaped slash stood beside another |
| RequestPath.SentPathIsReceived | Cutelyst/enginerequest.cpp:202-265 | a path sent with any bytes escaped, in either case, is received as the path if and only if it begins with a slash and, where slashes are sent as they are, holds no two in a row |
| RequestPath.RejoinsUnlessBeside | Cutelyst/dispatcher.cpp:183-217 | without such an escape, whatever parts are taken off a request's path can be put back |
| RequestPath.EscapedSlashIsLost | Cutelyst/enginerequest.cpp:220-240 | a raw path whose last part, taken off, comes back with a slash less |
| RequestPath.UnescapedTwice | Cutelyst/dispatchtypechained.cpp:177-182 | a raw path whose escaped percent sign becomes an escape of the argument |
| DispatchCourse.CourseOfRun | Cutelyst/controller.cpp:379-421 | whatever the outcomes, and whether or not a hook holds the request back before dispatch: after a call that succeeds the next of Begin, Autos and matched action or links is made, also after one that fails holding references in a request suspended before, unless it is a link; else End is called, with the arguments of the call before it, unless a call failed holding nothing in a request suspended before; after a call that detaches nothing is |
| DispatchCourse.OneCourse | Cutelyst/controller.cpp:379-421 | these rules leave one possibility for the calls made |
| DispatchCourse.AllSucceedRunsAll | Cutelyst/controller.cpp:379-421 | when every action succeeds all of them are called, in order, each once, then End with the request's arguments |
| DispatchPlan.MatchedCaptures | Cutelyst/actionchain.cpp:62-81 | for a matched chain each link is called with just the captures the match cut off for it, the end point with the arguments |
| DispatchPlan.UntilThenRest | Cutelyst/actionchain.cpp:62-81 | stopping a chain where references are held and going on from the stored position runs the whole chain |
| DispatchPlan.SuspensionDropsEnd | Cutelyst/context.cpp:372-385 | two oracles with the same return values, one suspending: End is called in one run and left in the queue in the other |
| DispatchPlan.NothingLeft | Cutelyst/context.cpp:372-385 | resuming leaves nothing in the queue if and only if it goes on after every component but the last |
| SuspendableDispatch.Context.ExecuteAction | Cutelyst/context.cpp:424-458 | one call on the stack, at any depth and with any references held, with the arguments of the moment; a detached request calls nothing, nor does one at the recursion limit |
| SuspendableDispatch.Context.ExecuteLink | Cutelyst/actionchain.cpp:68-80 | a link gets its captures, the last action the arguments |
| SuspendableDispatch.Context.ExecuteChain | Cutelyst/actionchain.cpp:49-84 | the loop stops at the end, at a failure or at held references, and in that last case queues the chain in front |
| SuspendableDispatch.Context.TakeCaptures | Cutelyst/actionchain.cpp:70-73 | as many captures as the action has, or as there are |
| SuspendableDispatch.Context.Dispatch | Cutelyst/controller.cpp:379-421 | if nothing suspends, the plan has run and nothing is queued; otherwise a reference is held and resuming the queue reaches the same end; if a hook holds one already, everything is queued; it returns true if and only if every call did and, unless references are held, every action of the plan was called |
| SuspendableDispatch.Context.HandleRequest | Cutelyst/application.cpp:381-404 | whatever references hooks hold by then, the request is finalized, once, with nothing queued, or suspended with a reference held |
| SuspendableDispatch.Context.ResumeNext | Cutelyst/context.cpp:372-381 | taking the head of the queue makes one step of the resumed run |
| SuspendableDispatch.Context.AttachAsync | Cutelyst/context.cpp:354-392 | a release keeps the request settled, changes nothing once it is finalized, and leaves in the queue just what a failure dropped |
| SuspendableDispatch.Context.Finalize | Cutelyst/context.cpp:494-531 | the engine request is finalized at most once |
| SuspendableDispatch.Release | Cutelyst/context.cpp:348-392 | any releases from any suspension: the request stays settled, and once finalized its queue is what a failure left of the queue it was suspended with |
| SuspendableDispatch.Serve | Cutelyst/context.cpp:348-392 | for every pattern of releases: finalized once no reference is left, exactly once, with exactly the plan's run behind it, whose calls take the one course above; what stays in the queue then is what a failure dropped of the first suspension's, nothing if and only if the resumed run went on to its end |
| Multipart.FindIsFirst | Cutelyst/multipartformdataparser.cpp:181-196 | the match found is the first |
| Multipart.ReadHeaderLine | Cutelyst/multipartformdataparser.cpp:110-125 | a header line read in pieces is the line |
| Multipart.ReadDelimiter | Cutelyst/multipartformdataparser.cpp:153-164 | a delimiter found in a buffer ends the data there |
| Multipart.ReadData | Cutelyst/multipartformdataparser.cpp:165-171 | data without a delimiter in sight is passed over, but for an overlap one byte shorter than a delimiter |
| MultipartParser.OneBuffer | Cutelyst/multipartformdataparser.cpp:86-176 | one buffer's worth of turns leaves the parser on the track of the whole body |
| MultipartParser.Execute | Cutelyst/multipartformdataparser.cpp:63-179 | for every buffer that holds a delimiter, and every body whose data sections all end at one, the uploads are those of the parser that sees the whole body |
| MultipartRoundTrip.EncodeParses | Cutelyst/multipartformdataparser.cpp:63-179 | an encoded list of parts, whatever follows them that is not the whole beginning of another part, gives just those parts, headers and data |
| MultipartRoundTrip.LineAdded | Cutelyst/multipartformdataparser.cpp:126-132 | a header line is split at its first colon and its value bared of white space |
| MultipartRoundTrip.NamelessAdded | Cutelyst/multipartformdataparser.cpp:126-132 | a line without a colon is a value without a name |
| MultipartRoundTrip.HeaderIsSet | Cutelyst/headers.cpp:463-480 | a header that is set has just this value, under its name in either case, and all others keep theirs |
| MultipartRoundTrip.UploadEndsWithItsData | Cutelyst/multipartformdataparser.cpp:153-163 | for data with a line end after it, an upload's slice is the data if and only if the data spell the delimiter nowhere after their first byte |
| MultipartRoundTrip.UploadEndsTwoBytesBefore | Cutelyst/multipartformdataparser.cpp:153-163 | for any bytes between data and delimiter, an upload's slice is the data if and only if they are two |
| MultipartRoundTrip.WithoutLineEndBytesAreLost | Cutelyst/multipartformdataparser.cpp:153-163 | data with no line end after them that lose two bytes |
| Uploads.Parse | Cutelyst/multipartformdataparser.cpp:51-61 | the same from the caller's side, with a buffer of 1024 at least; the uploads of an encoded list of parts carry just those parts |
| Uploads.UploadFile.ReadData | Cutelyst/upload.cpp:195-205 | a read yields the next bytes of the slice, or of the body before it if the position is negative, and leaves the body's position alone |
| Uploads.UploadFile.Seek | Cutelyst/upload.cpp:147-156 | refused past the end only; the position stays within the slice if and only if it is not negative |
| Uploads.ReadBeforeStart | Cutelyst/upload.cpp:147-205 | an upload that after a seek reads what stands before it |
| Uploads.ReadInPieces | Cutelyst/upload.cpp:195-205 | reads of any sizes, one after the other, yield the slice as far as they reach |
| WebSocketFrames.ReceiveMore | Cutelyst/Server/protocolwebsocket.cpp:89-136 | receiving bytes in two pieces is receiving them at once |
| ProtocolWebSocket.WebSocket.Arrive | Cutelyst/Server/protocolwebsocket.cpp:89-136 | however the bytes are cut into arrivals, the state is that of the receiver of whole phases on all of them, also at the end of the connection unless a frame without payload ended it |
| ProtocolWebSocket.WebSocket.Parse | Cutelyst/Server/protocolwebsocket.cpp:89-136 | the loop goes as far as the bytes allow, through one buffer |
| ProtocolWebSocket.WebSocket.FixedTurn | Cutelyst/Server/protocolwebsocket.cpp:273-380 | header, size and mask, each read at once, are one whole phase |
| ProtocolWebSocket.WebSocket.PayloadTurn | Cutelyst/Server/protocolwebsocket.cpp:382-446 | a payload taken in pieces, unmasked where it stands, is the whole payload unmasked |
| ProtocolWebSocket.WebSocket.Unmask | Cutelyst/Server/protocolwebsocket.cpp:388-391 | in-place unmasking from the current position |
| ProtocolWebSocket.MaskedInPieces | Cutelyst/Server/protocolwebsocket.cpp:388-391 | the mask goes on where the last piece stopped |
| WebSocketMessages.LengthRead | Cutelyst/Server/protocolwebsocket.cpp:37-67 | the length bytes of a header read as the length |
| WebSocketMessages.KnownFrame | Cutelyst/Server/protocolwebsocket.cpp:37-63 | the masked example of RFC 6455, section 5.7; `KnownHeaders` has those of its longer lengths |
| WebSocketMessages.ReceiveFrame | Cutelyst/Server/protocolwebsocket.cpp:273-446 | a frame written with `createWebsocketHeader` and a mask is received as that frame, and no byte more |
| WebSocketMessages.ControlChangesNothing | Cutelyst/Server/protocolwebsocket.cpp:431-443 | a ping is answered with its own payload, a pong is reported, and the open message is left alone |
| WebSocketMessages.DataTaken | Cutelyst/Server/protocolwebsocket.cpp:144-211 | a data frame is reported; it opens a message, extends it or delivers the concatenation |
| WebSocketMessages.HeaderRefused | Cutelyst/Server/protocolwebsocket.cpp:273-340 | exactly which headers end the connection with a close code, for every first two bytes; all others are taken |
| WebSocketMessages.LastFrame | Cutelyst/Server/protocolwebsocket.cpp:401-432 | a close frame ends the connection with its payload reported, a fragment of nothing without |
| WebSocketMessages.MessagesTaken | Cutelyst/Server/protocolwebsocket.cpp:382-446 | messages in any fragments, with control frames before, between and after them, bring forth in this order each ping's pong, each fragment's frame, and after a message's last fragment the concatenation; nothing else |
| WebSocketMessages.DeliveredHoweverCut | Cutelyst/Server/protocolwebsocket.cpp:89-136 | the same for any split of the bytes into arrivals, whatever bytes follow |
| WebSocketMessages.ConversationHolds | Cutelyst/Server/protocolwebsocket.cpp:144-231 | of all this the messages are the concatenations, and the pongs sent the payloads of the pings, in order |
| EventLifetime.CanProcess | EventLoopEPoll/eventdispatcher_epoll_p.h:25-32 | an entry of a batch can be processed if and only if its object is still registered or another batch holds it too |
| EventLifetime.NothingLeaks | EventLoopEPoll/eventdispatcher_epoll_p.h:26-35 | with no batch under way the objects alive are the registered ones |
| EventLifetime.RegistrationsAreEntries | EventLoopEPoll/eventdispatcher_epoll_p.h:137-140 | the registrations counted in an object are the table entries that lead to it |
| EventLifetime.AddNotifierKeeps | EventLoopEPoll/socknot_p.cpp:15-110 | registering a notifier keeps every table, the kernel's pointers and masks, and the reference counts in agreement |
| EventLifetime.RemoveNotifierKeeps | EventLoopEPoll/socknot_p.cpp:112-161 | so does unregistering one |
| EventLifetime.AddTimerKeeps | EventLoopEPoll/timers_p.cpp:179-238 | so does a new timer, whose identity may be that of a stopped timer still in flight |
| EventLifetime.AddZeroTimerKeeps | EventLoopEPoll/timers_p.cpp:240-243 | so does a new zero timer |
| EventLifetime.RemoveTimerKeeps | EventLoopEPoll/timers_p.cpp:245-275 | so does stopping a timer of either kind |
| EventLifetime.RefKeeps | EventLoopEPoll/eventdispatcher_epoll_p.h:26-26 | a reference is one more use in flight |
| EventLifetime.DerefKeeps | EventLoopEPoll/eventdispatcher_epoll_p.h:27-32 | ending a use keeps everything in agreement, also when it deletes the object |
| EventDispatcher.EventDispatcherEPoll.RegisterSocketNotifier | EventLoopEPoll/socknot_p.cpp:15-110 | the whole new state; a second notifier of one type for a descriptor changes nothing |
| EventDispatcher.EventDispatcherEPoll.UnregisterSocketNotifier | EventLoopEPoll/socknot_p.cpp:112-161 | the whole new state; the last notifier takes the descriptor with it |
| EventDispatcher.EventDispatcherEPoll.DestroyNotifier | EventLoopEPoll/eventdispatcher_epoll_p.cpp:155-177 | a destroyed notifier is unregistered; that nothing is sent to it any more is part of the invariant |
| EventDispatcher.EventDispatcherEPoll.RegisterTimer | EventLoopEPoll/timers_p.cpp:179-238 | the whole new state |
| EventDispatcher.EventDispatcherEPoll.RegisterZeroTimer | EventLoopEPoll/timers_p.cpp:240-243 | the whole new state |
| EventDispatcher.EventDispatcherEPoll.UnregisterTimer | EventLoopEPoll/timers_p.cpp:245-275 | the whole new state, and whether there was such a timer |
| EventDispatcher.EventDispatcherEPoll.Deref | EventLoopEPoll/eventdispatcher_epoll_p.h:27-32 | the last reference deletes the object, which the list of the deleted then ends with |
| EventDispatcher.EventDispatcherEPoll.Callback | EventLoopEPoll/eventdispatcher_epoll_p.cpp:82-130 | after anything a callback does, inner event loops included, no object was freed twice and the objects in flight are alive and the same |
| EventDispatcher.EventDispatcherEPoll.ProcessEvents | EventLoopEPoll/eventdispatcher_epoll_p.cpp:60-136 | with application code run on waking up, for posted events and before blocking, and in every delivery: all that holds before holds after, with the same uses in flight; outside other loops an entry is delivered if and only if it is registered when its turn comes; the log tells of every turn what was sent in it; a delivery is reported |
| EventDispatcher.EventDispatcherEPoll.ProcessBatches | EventLoopEPoll/eventdispatcher_epoll_p.cpp:80-135 | once the posted events are delivered, every zero timer gets its turn, whatever the others do |
| EventDispatcher.EventDispatcherEPoll.HoldAll | EventLoopEPoll/eventdispatcher_epoll_p.cpp:82-120 | one reference for each entry before any is processed |
| EventDispatcher.EventDispatcherEPoll.TakeTurn | EventLoopEPoll/eventdispatcher_epoll_p.cpp:89-130 | delivered if and only if registered or held by another batch, a zero timer never inside its own delivery; what is delivered sends its timer's event, or the events of the reported notifiers that still exist, and a timer is started again if and only if it still runs or is held; the use ends either way |
| EventDispatcher.EventDispatcherEPoll.ProcessZeroTimer | EventLoopEPoll/eventdispatcher_epoll_p.cpp:89-103 | inactive while its event is being sent, active again afterwards |
| EventDispatcher.EventDispatcherEPoll.ProcessSocket | EventLoopEPoll/eventdispatcher_epoll_p.cpp:155-177 | each notifier the object had when its turn came, and whose kind or an error the kernel reported, is sent its event, in order, if and only if it still exists when its place comes |
| EventDispatcher.EventDispatcherEPoll.ProcessTimer | EventLoopEPoll/eventdispatcher_epoll_p.cpp:186-223 | the event is sent, the object is still alive afterwards, and it is started again if and only if it is still registered or another batch holds it |
| Timers.TimerInfo.RoundMilliseconds | EventLoopEPoll/timers_p.cpp:18-104 | the millisecond, as a function of interval and second: a short interval's is the even one, or multiple of 4, before or next; a long one's is the whole second within the slack, else the multiple nearest of what timers of its interval meet at, as far as 5% allow |
| Timers.TimerInfo.CoarseTimeout | EventLoopEPoll/timers_p.cpp:18-120 | the time is that millisecond of the second, after now and within the slack, so the branch that catches up is dead |
| Timers.TimerInfo.CalculateNextTimeout | EventLoopEPoll/timers_p.cpp:124-177 | a precise delay is the interval; a coarse one leads to the rounded millisecond, and is positive and within the slack and a millisecond; a very coarse one leads to a whole second, within half a second of the whole seconds, and is positive if and only if there is one or the second is half over |
| Timers.ToBoundary | EventLoopEPoll/timers_p.cpp:96-101 | the multiple of the boundary on the nearer side, or the limit there |
| Timers.NearestIsNearest | EventLoopEPoll/timers_p.cpp:96-101 | no multiple within the limits is nearer by more than a millisecond |
| HuffmanTable.AllPlaced | Cutelyst/Server/hpack_p.cpp:142-194 | every symbol's code lies in the run of codes of its length, at its own place |
| HuffmanTable.AllCoded | Cutelyst/Server/hpack_p.cpp:142-194 | every place in a run is the code of a symbol |
| HuffmanTable.CodesRise | Cutelyst/Server/hpack_p.cpp:142-194 | codes of one length stand in the order of their symbols |
| HuffmanTable.FirstIsNext | Cutelyst/Server/hpack_p.cpp:142-194 | the codes of each length begin where those of the length before end |
| Huffman.InnerChild | Cutelyst/Server/hpack_p.cpp:142-194 | the code is complete: below an inner node there is an inner node or a symbol |
| Huffman.CodeRead | Cutelyst/Server/hpack_p.cpp:142-194 | the code is a prefix code: the bits of a symbol's code yield that symbol, no sooner |
| Huffman.AtMostOne | Cutelyst/Server/hpack_p.cpp:196-5061 | four bits complete at most one symbol, so a table entry has room for all they complete |
| Huffman.ByteRead | Cutelyst/Server/hpack.cpp:27-52 | two look-ups do what the eight bits of a byte do, failure included |
| Huffman.AnswerIsInverse | Cutelyst/Server/hpack.cpp:20-65 | decoding gives a text if and only if the bytes are its code followed by at most seven ones |
| Huffman.CodeIsUnique | Cutelyst/Server/hpack.cpp:20-65 | a string of bytes is the code of one text at most |
| Huffman.KnownString | Cutelyst/Server/hpack_p.cpp:142-194 | the example of RFC 7541, section C.6.1 |
| Huffman.HpackDecodeString | Cutelyst/Server/hpack.cpp:20-65 | the loop over nibbles finds that text, and fails if and only if there is none |
| Huffman.RoundTrip | Cutelyst/Server/hpack_p.cpp:142-194 | every text is decoded from its own code |
| HpackInteger.EncodeUInt16 | Cutelyst/Server/hpack.cpp:93-107 | the loop writes the integer's code |
| HpackInteger.DecodeUInt16 | Cutelyst/Server/hpack.cpp:71-91 | the loop reads the integer modulo 65536 and stops right after it, or fails where the bytes end |
| HpackInteger.WrittenIsRead | Cutelyst/Server/hpack.cpp:71-107 | a written integer is read back with exactly the bytes that follow |
| HpackInteger.KnownIntegers | Cutelyst/Server/hpack.cpp:93-107 | the examples of RFC 7541, sections C.1.1 and C.1.2 |
| HpackInteger.SendAndReceive | Cutelyst/Server/hpack.cpp:71-107 | both together: the integer modulo 65536, itself if and only if it is below |
| HpackTable.FittingIsLongest | Cutelyst/Server/hpack.cpp:452-464 | of the newest entries as many as fit, and no more would |
| HpackTable.DynamicTable.Add | Cutelyst/Server/hpack.cpp:452-464 | an insertion keeps the longest run of newest entries that fits, itself first; one too big empties the table; what it weighs is its names, its values and 32 for each entry |
| HpackTable.DynamicTable.UpdateSize | Cutelyst/Server/hpack.cpp:383-399 | an update above the configured size is refused; otherwise the longest run that fits stays |
| HpackTable.LongestThatFitted | Cutelyst/Server/hpack.cpp:383-464 | after any run of insertions and updates the table is the longest run of newest entries that fitted at every moment |
| Http2.Connection.ParseFrame | Cutelyst/Server/protocolhttp2.cpp:183-260 | while headers are unfinished only their continuation is processed; even identities, frames too long and stray continuations change nothing; exactly which frames of each type are accepted, and the error of each that is not; only headers open a stream, above every earlier one; what an accepted frame of each type does; the ledger keeps balance |
| Http2.Connection.ParseHeaders | Cutelyst/Server/protocolhttp2.cpp:388-511 | exactly which headers are accepted, which stream they open, which waits for continuation, what length they announce, and that a stream is queued once its last headers are finished, with the identity discipline and the ledger kept |
| Http2.Connection.ParseSettings | Cutelyst/Server/protocolhttp2.cpp:280-331 | accepted if and only if every setting is; a new initial window shifts every stream so that its distance to the initial window stays; the last one given counts |
| Http2.Connection.ParseData | Cutelyst/Server/protocolhttp2.cpp:333-386 | data is accepted if and only if its stream is open, its body can be kept, and with an announced length all of it has come, and no more at the end; it is counted, and queues the stream at its end |
| Http2.Connection.ParseBody | Cutelyst/Server/protocolhttp2.cpp:363-383 | a body of any DATA frames is accepted if and only if no length was announced, or the first frame carries just that length and the others nothing |
| Http2.TwoHalves | Cutelyst/Server/protocolhttp2.cpp:363-383 | a body of the announced length in two frames, which is refused |
| Http2.Connection.ParseRstStream | Cutelyst/Server/protocolhttp2.cpp:562-594 | a known stream is closed and nothing else changes |
| Http2.Connection.ParseWindowUpdate | Cutelyst/Server/protocolhttp2.cpp:596-648 | an increment enters the ledger if and only if it is accepted, and then the window is at most 2^31 - 1 |
| Http2.Connection.ProcessingFinished | Cutelyst/Server/protocolhttp2.cpp:946-952 | the stream is removed and its identity never comes back |
| Http2.Connection.WriteOnce | Cutelyst/Server/protocolhttp2.cpp:869-926 | one DATA frame: its length, that it ends the stream if and only if the windows have more room than the data left, and that windows are charged for all frames but such a one |
| Http2.Connection.DoWrite | Cutelyst/Server/protocolhttp2.cpp:869-926 | after any number of waits the call has ended, or its stream is gone, or it waits again with an empty window, with everything kept whatever happens to the connection meanwhile; the frames it sent add up to the data unless the stream was closed, none but the last ends the stream, and the last does if and only if the windows then had more room than it filled |
| Http2.NegativeFrame | Cutelyst/Server/protocolhttp2.cpp:869-926 | a charged stream, an initial window of nothing and another write: a frame of length -16384, which refills the windows |
| Http2.Connection.WindowsBalance | Cutelyst/Server/protocolhttp2.cpp:280-331 | at any time a window is the initial size plus the accepted increments less what was charged, for each stream and for the connection |
| QueryString.DecodePercentEncoding | Cutelyst/utils.cpp:170-250 | decoding in place gives the parameters of the raw query; the write position never passes the read position |
| QueryString.ProcessKeyPair | Cutelyst/utils.cpp:186-203 | the pair of the moment is filed, or dropped when it is empty |
| QueryString.QueryParameters | Cutelyst/request.cpp:264-275 | the values of a name, oldest first |
| QueryString.OrderOfAppearance | Cutelyst/request.cpp:264-275 | filed newest first and read back to front, a name's values come in order of appearance |
| QueryString.EncodedIsRead | Cutelyst/utils.cpp:170-250 | pairs escaped in any way and either case, spaces as plus signs or not, empty values with their equals sign or not, are decoded as the pairs in order, but for those of nothing at all |
| QueryString.LastEqualsCounts | Cutelyst/utils.cpp:205-240 | of two equals signs in a pair the last counts, and what stood before the first is lost |
| QueryString.NoDigits | Cutelyst/utils.cpp:209-224 | an escape of characters that are no digits is one byte, made of their codes |
| QueryString.NothingEmpty | Cutelyst/utils.cpp:186-203 | pairs are lost if and only if one of them has neither name nor value |
| QueryString.SentIsRead | Cutelyst/request.cpp:264-275 | what was sent under a name is what is read under it |
| ChunkedOutput.Response.WriteData | Cutelyst/response.cpp:33-60 | the first data sends the headers without a length and decides about chunks; nothing is lost or repeated |
| ChunkedOutput.Response.FinalizeHeaders | Cutelyst/enginerequest.cpp:104-120 | one block of headers, first, with a length if and only if nothing was written by hand |
| ChunkedOutput.Response.Write | Cutelyst/enginerequest.cpp:122-142 | data as it is, or as one chunk |
| ChunkedOutput.HexadecimalShape | Cutelyst/enginerequest.cpp:122-142 | a chunk's size is written in capitals without leading zeros |
| ChunkedOutput.Response.Finalize | Cutelyst/enginerequest.cpp:27-58 | the body, or one last chunk |
| ChunkedOutput.ChunksRead | Cutelyst/enginerequest.cpp:122-142 | a receiver of chunks gets the concatenation and stops right after the last chunk |
| ChunkedOutput.Respond | Cutelyst/enginerequest.cpp:27-142 | any writes and the end: headers once and first, then bytes a receiver takes for exactly the data written, if and only if something was written or the body itself passes for a last chunk; unwritten responses are sent whole with their length, though the headers announce chunks; the end of the connection is announced if and only if it ends data sent without chunks and length |
| ChunkedOutput.NothingReceived | Cutelyst/enginerequest.cpp:27-58 | bytes are received as an empty body, whatever follows, if and only if they are zeros and two line ends |
| ChunkedOutput.UnwrittenIsNotReceived | Cutelyst/enginerequest.cpp:27-58 | a response with chunks announced and nothing written that a receiver of chunks fails on |
| FastCgi.DoWrite | Cutelyst/Server/protocolfastcgi.cpp:445-505 | any data goes out as records of at most 65535 bytes; nothing to write is an error |
| FastCgi.Padding | Cutelyst/Server/protocolfastcgi.cpp:472-476 | content and padding are a multiple of 8 up to 65528 bytes; beyond there is no padding |
| FastCgi.RecordRead | Cutelyst/Server/protocolfastcgi.cpp:209-260 | a record names its version, type and stream, and the header arithmetic finds its content and what follows it |
| FastCgi.WrittenIsRead | Cutelyst/Server/protocolfastcgi.cpp:445-505 | the records of any data, all of this stream, read back as the data |
| FastCgi.ParseHeaders | Cutelyst/Server/protocolfastcgi.cpp:154-207 | the loop finds the pairs of the content, or fails on the same content, with the room taken of the record buffer |
| FastCgi.PairsRead | Cutelyst/Server/protocolfastcgi.cpp:89-207 | encoded pairs are read back in order if and only if the last of them is not empty and the record buffer has room for each |
| FastCgi.FitsIsTotal | Cutelyst/Server/protocolfastcgi.cpp:89-107 | in a record buffer of at most 65536 bytes there is room for each if and only if there is room for all names, all values and 4 bytes for each pair together |

## Left out

- ChainedDispatcher.DispatchTypeChained.RegisterAction: action objects are values; a registered action's `PathPart` is replaced in the copy that is filed, so aliasing of an action registered elsewhere is not captured. An `Args` or `CaptureArgs` attribute with no number is not modelled apart from its arity.
- ChainedDispatcher.DispatchTypeChained.UriForAction: takes the action's line as a ghost argument; without one the program's walk does not end (`LineIfWalkEnds`).
- ChainedDispatcher.DispatchTypeChained.ExpandAction: likewise only for actions that have a line.
- Arguments.DecodePercentEncoding: where an escape makes the program read UTF-8, the bytes are read as Latin-1.
- SuspendableDispatch.Context.ExecuteAction: releases an action makes while it runs are counted in the references it leaves; `forward`, nested requests and event loops inside an action are not modelled, nor is the error text at the recursion limit.
- SuspendableDispatch.Context.Dispatch: the controller's Begin, Auto and End lists are given; how they are collected from the namespaces is not modelled.
- SuspendableDispatch.Release: releases come only while a reference is held.
- MultipartParser.Execute: bodies cut off inside data, and data that begin with a delimiter, are excluded. After a short last read without a delimiter the program keeps more bytes than it has, and moves them from before its buffer; whether a delimiter right at the start of data is seen depends on where the buffers end.
- Uploads.Parse: the same, and bodies start with the delimiter, since no overlap is kept while the first one is searched for; finding the boundary in the content type, short reads and I/O errors are not modelled.
- Uploads.UploadFile.ReadData: positions from which the body itself would be read before its start are excluded; what a device does with them is not part of this model.
- ProtocolWebSocket.WebSocket.Arrive: text is taken to be decodable; the reply to a close frame has no code or reason; after a frame without payload that ends the connection the loop goes on with bytes that came with it, and the two receivers are only compared on what was emitted before.
- EventDispatcher.EventDispatcherEPoll.ProcessEvents: system calls succeed, descriptors and timer identities in use are not given out again, the wake-up descriptor and the flags that exclude notifiers or timers are not modelled. `unregisterTimers` is `unregisterTimer` for each timer of an owner.
- EventDispatcher.EventDispatcherEPoll.Callback: `depth` bounds the nesting of event loops in one run; it is arbitrary.
- Huffman.HpackDecodeString: for an empty string the program reads a byte that does not belong to it.
- HpackInteger.DecodeUInt16: shifts by 32 bits or more, which only codes of more than five bytes reach, are not defined in the program and are mathematical here.
- Http2.Connection.ParseFrame: whole frames and mathematical integers; the frames that acknowledge settings and pings and carry an error back are not modelled; header blocks are an oracle that gives an error and the length they announce, and so is the opening of a device for a body.
- Http2.Connection.NewStream: a stream is a value in the connection's table, reached by its identity, not an object of its own.
- Http2.Connection.DoWrite: the result of writes to the socket, and its return value on a closed stream, are not modelled; `depth` bounds the nesting of waiting loops and `waits` the number of waits of one call that are followed; both are arbitrary.
- ChunkedOutput.Response.WriteData: the response and its engine request are one object.
- ChunkedOutput.Response.Finalize: bodies from a device, error pages and cookies are not modelled.
- FastCgi.DoWrite: writes to the socket are complete.
- FastCgi.ParseHeaders: what each name means to the request is not modelled.
- RequestPath.RejoinsUnlessBeside: a path's bytes are read as Latin-1, also where an escape makes the program read UTF-8; slashes are the same in both.
- Strings are sequences of characters or bytes: text codecs, percent-encoded UTF-8 and case folding beyond ASCII are not modelled.
- The HTTP/1 line reader, the HTTP/2 read loop, header name literals and static tables of HPACK, STDIN records of FastCGI.
- Plugins, views, sessions, translations, logging, statistics, command line, processes and sockets.
