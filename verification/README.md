# StdSC verification

StdSC is a small C++ library for request/reply programs: client threads share one `Client`,
a `Server` accepts connections and runs one worker thread for each, and a container of
callbacks decides about every request. This project models the library and its two example
programs in Dafny and proves what they rely on. `dafny verify dfyconfig.toml` checks it.

## What is modelled

**One connection.** There is no framing beyond a packet of 1032 bytes whose body may hold a
length, so both ends must consume exactly what the other has written on every path.
`Exchange` is a step system: a step is one `recv` or `send` of any number of bytes, one
acquisition of the client's mutex, one callback evaluation, or the breaking of the connection.
`Alignment` proves its invariant, from which follow that both streams are empty and the worker
is between requests whenever the mutex is free, and that a shared client is linearized.
`Progress` gives the measure that falls with every step and states exactly which calls end.

**The transport.** `Transport` holds the `read` and `write` loops over system calls that move
any number of bytes. `Endpoints` runs the client's four methods and the worker's loop on these
sockets; `Readers` proves that both descriptions of reading agree.

**The example servers.** `Application` is the state of a whole server: the flags of the one
`StateInit` object that all connections share, the state of each connection and its record.
`ServerObjects` has the objects themselves (contexts that are copied, states that are aliased,
the callback container) and proves each operation to be the corresponding step of
`Application`.

**The whole example.** `Deployment` composes any number of connections with one application
state; clients run the example's script or do whatever they like. `MultiClientRun` proves that
every run ends and that the program's count of verified clients equals the number of threads.
`Scripts` says where the client program stands on any connection, broken or not.
`Outcomes` says what any client, scripted or free, is ever told.

**Around it.** `Retry` (the blocking methods), `Shutdown` (accept loop, containers, joining and
closing), `BufferStreams` (`seekoff` over one shared area), `PlainData` (printing and parsing
vectors), `Splitting` (`split`).

## What the proofs show about the code

* A call that asks for data under a code without a callback, or with a callback of another
  group, never ends: the server sends only an Accept, the client takes it for the first of two
  packets. `Progress.EndsIffAnswerable` is the exact condition, `Application.EvalFits` shows that
  the codes it speaks of are those with a callback of their own group, whatever is registered,
  and `Progress.DownloadStarves` gives the run for every other code.
* "Ready" does not mean that a connection has sent both values. The flags belong to all
  connections; `Application.Readiness` says exactly when a connection leaves `StateInit` and
  `Application.Acceptance` which requests are accepted,
  `Application.ReadyWithoutOwnValues` gives the run in which one value is enough, and
  `Deployment.ScriptNeverRejected` shows that the example's clients get the right result
  nevertheless.
* A rejected call of a connection's only user stays rejected, so the blocking methods can only
  time out (`Retry.RejectedOnceTimesOut`, and `Outcomes.RepeatedCallStaysRejected` in the whole system); and with an interval of less than a second they make
  one attempt whatever the timeout (`Retry.SleepBound`).
* `seekoff` takes the end for the last byte and refuses the position behind it, so a position
  cannot be told at the end of the stream (`BufferStreams.TellThenSeek`); and `pbump` takes an
  `int`, so areas larger than 2^31 bytes are not safe (`BufferStreams.PbumpSafeIff`).
* An empty vector leaves nothing on the stream, so it does not come back
  (`PlainData.RoundTrip`).

## Assumptions

A client method is used with a code of its own group, in the documented range. A callback
that overrides the download function of its class and returns has written exactly one complete message; one that throws has written
none or one. `send` makes progress, a failed socket stays failed, and one system call moves at most
2^31-1 bytes, as the `int` that holds its result can say. Numbers in buffers are
four bytes in the same byte order at both ends.

## Model

| member | source | states |
|---|---|---|
| Packets.DispatchIsExact | stdsc/stdsc_packet.hpp:46-56 | the bit tests of the dispatch never confuse two groups inside the documented ranges |
| Packets.LowestGroupBit | stdsc/stdsc_callback_function_container.cpp:59-84 | for every code whatever, the lowest of its group bits decides the branch, and a code without one takes none |
| Packets.BitOf | stdsc/stdsc_callback_function_container.cpp:59-84 | the test of a group bit looks at that bit of the code and at no other |
| Packets.EnumFieldPacket | stdsc/stdsc_packet.hpp:74-106 | the value written as an enum field reads back as the data size, since both name the same bytes of the union |
| Packets.MakePacket | stdsc/stdsc_packet.cpp:53-56 | a plain packet carries its code and announces no data |
| Packets.MakeDataPacket | stdsc/stdsc_packet.cpp:43-51 | a data packet exists exactly for codes that may carry data, and announces its size |
| Packets.DataPacketIff | stdsc/stdsc_packet.cpp:43-47 | a data packet can be made for every code with one of two group bits, also if the dispatch takes another branch for it |
| Packets.PaddingIsZero | stdsc/stdsc_packet.cpp:31-34 | the body of a packet is zero beyond its first eight bytes |
| Protocol.RequestPacket | stdsc/stdsc_client.cpp:113-144 | the packet of every valid call carries its code and the length of its body |
| Protocol.AnyCallIsValid | stdsc/stdsc_client.cpp:107-263 | every code of a documented range and every body, the empty one included, makes a valid call |
| Protocol.ReplyTo | stdsc/stdsc_server.cpp:223-236 | the reply carries the callback's message, if any, and an ack that says what was decided |
| Protocol.AnythingElseFits | stdsc/stdsc_callback_function_container.cpp:59-94 | a callback of the code's own group may accept or reject, and one that rejects a download may have written a message or not |
| Alignment.RequestAnnounces | stdsc/stdsc_callback_function_container.cpp:57-94 | the server's dispatch reads a body for a request exactly when the client's method sends one |
| Alignment.ClientSendAligned | stdsc/stdsc_client.cpp:143-145 | any chunk that the client sends keeps bytes consumed, in flight and unsent equal to the request |
| Alignment.ServerRecvAligned | stdsc/stdsc_server.cpp:220-222 | any chunk that the worker receives keeps that sum, and at the evaluation the code and body are those of the caller |
| Alignment.ServerEvalAligned | stdsc/stdsc_callback_function_container.cpp:59-94 | the evaluation turns an exhausted request into a reply of which every byte is still owed |
| Alignment.ServerSendAligned | stdsc/stdsc_server.cpp:228-236 | any chunk that the worker sends keeps received, in flight and owed bytes equal to the reply |
| Alignment.ClientRecvAligned | stdsc/stdsc_client.cpp:176-212 | any chunk that the client receives keeps that sum, and the call can end only when nothing is left, with the verdict on it |
| Alignment.ClientRecvFinishes | stdsc/stdsc_client.cpp:181-212 | on all paths, early and late rejection included, the client stops exactly at the last byte of the reply |
| Alignment.StepKeepsInv | stdsc/stdsc_client.cpp:107-263 | every step of client threads and worker keeps the invariant of the exchange |
| Alignment.RunKeepsInv | stdsc/stdsc_server.cpp:214-245 | so does every run, for every chunking and every order of acquisition |
| Alignment.Reachable | stdsc/stdsc_client.cpp:107-263 | every reachable state of a connection satisfies the invariant |
| Alignment.FreeMeansDrained | stdsc/stdsc_client.cpp:107-263 | stream alignment: mutex free and no socket error implies both streams empty and the worker at the start of its loop |
| Alignment.Linearized | stdsc/stdsc_server.cpp:220-236 | evaluations follow the order of lock acquisition, every call gets the verdict on its own request, and counts of calls, evaluations and results agree |
| Progress.MeasureFalls | stdsc/stdsc_client.cpp:167-263 | phase and bytes remaining fall lexicographically with every step of an exchange |
| Progress.CanMoveUnlessStarved | stdsc/stdsc_server.cpp:216-237 | an exchange under way has an enabled step if and only if the client is not waiting for a packet nobody will send |
| Progress.StarvedIsUnanswerable | stdsc/stdsc_callback_function_container.cpp:77-94 | only a call that asks for data under a code without a callback of its group can end up waiting like that |
| Progress.StepOrEnd | stdsc/stdsc_client.cpp:167-263 | a step leaves the call in place or ends it with the verdict on it |
| Progress.EndsIffAnswerable | stdsc/stdsc_callback_function_container.cpp:77-94 | however it is scheduled, an exchange that can go no further has ended if and only if its code has a callback of its own group or it asks for no data |
| Progress.ReachesTheEnd | stdsc/stdsc_server.cpp:216-237 | such a state is reached from every exchange under way |
| Progress.CallRuns | stdsc/stdsc_client.cpp:107-263 | every valid call on an idle connection runs to such a state, and has ended there if and only if it was answerable |
| Progress.DownloadStarves | stdsc/stdsc_callback_function_container.cpp:77-94 | every call that asks for data under any other code gets a fresh connection stuck, with the caller still holding the lock |
| Progress.AnythingMayHappen | stdsc/stdsc_socket.cpp:192-222 | the model lets every system call move any number of bytes up to what there is and is asked for, and every callback decide anything that fits its code |
| Progress.MayCall | stdsc/stdsc_client.cpp:107-109 | any thread can make any valid call while the lock is free, on a broken connection too |
| Progress.MayBreak | stdsc/stdsc_socket.cpp:200-203 | any connection can break in any state |
| Progress.BrokenIsSilent | stdsc/stdsc_socket.cpp:192-222 | nothing is sent or received on a broken connection |
| Progress.BrokenEnds | stdsc/stdsc_server.cpp:238-243 | on a broken connection the call that holds the lock ends with a socket error and the worker stops, after the evaluation it may be in |
| Transport.Socket.Read | stdsc/stdsc_socket.cpp:192-206 | for every chunking exactly the requested bytes are taken, in order, and the rest of stream and buffer is untouched; an error is reported exactly if `recv` reports one, and without one the read succeeds if and only if the stream holds enough |
| Transport.Socket.Write | stdsc/stdsc_socket.cpp:208-222 | for every chunking exactly the given bytes are appended, unless `send` reports an error, and then a proper prefix of them |
| Transport.Socket.SendPacket | stdsc/stdsc_socket.cpp:483-486 | a packet is appended whole unless a call reports an error |
| Transport.Socket.RecvPacket | stdsc/stdsc_socket.cpp:488-497 | a packet is exactly the next 1032 bytes; without an error it is received if and only if there are so many |
| Transport.Socket.SendBuffer | stdsc/stdsc_socket.cpp:499-506 | a buffer is appended whole unless a call reports an error, an empty one not at all |
| Transport.Socket.RecvBuffer | stdsc/stdsc_socket.cpp:508-518 | a buffer is exactly the next bytes of its size, received without an error if and only if there are so many; an empty one is not waited for |
| Transport.MessagesInOrder | stdsc/stdsc_socket.cpp:192-222 | messages read with the lengths they were written with come back in order and leave the rest of the stream |
| Transport.Transfer | stdsc/stdsc_socket.cpp:483-518 | unless a call reports an error, the loops of both ends together move any list of messages intact, however writing messages, delivering any number of bytes and reading messages that are there alternate |
| Endpoints.Client.SendRequest | stdsc/stdsc_client.cpp:107-134 | writes nothing but its request; unless a call reports an error it ends with a result if and only if a whole reply is there, has then written all of the request, and reports what the ack says |
| Endpoints.Client.SendData | stdsc/stdsc_client.cpp:136-165 | likewise with a body behind the packet |
| Endpoints.Client.RecvData | stdsc/stdsc_client.cpp:167-213 | takes message and ack, or stops at an early Reject, leaving the rest of the stream |
| Endpoints.Client.SendRecvData | stdsc/stdsc_client.cpp:215-263 | both together |
| Endpoints.ReplyIsParsed | stdsc/stdsc_client.cpp:176-212 | the client's reading of any reply to its call gives the verdict and stops at the reply's last byte |
| Endpoints.BareAcceptStarves | stdsc/stdsc_callback_function_container.cpp:77-83 | an Accept alone does not complete a call that asks for data |
| Endpoints.RequestIsParsed | stdsc/stdsc_callback_function_container.cpp:66-94 | the worker's reading of any request gives back packet and body and stops at the request's last byte |
| Endpoints.CallsAreRead | stdsc/stdsc_server.cpp:216-237 | from the bytes of any list of calls the worker reads back exactly their codes and bodies, in order |
| Readers.ClientReadsAsParsed | stdsc/stdsc_client.cpp:176-212 | however the stream is cut into chunks, the step system's client ends its call exactly where the methods do, with the same outcome |
| Readers.WorkerReadsAsParsed | stdsc/stdsc_callback_function_container.cpp:66-94 | however the stream is cut into chunks, the step system's worker evaluates exactly the packet and body that the methods read |
| Readers.FailedAckIsReported | stdsc/stdsc_client.cpp:127-133 | a Failed in place of the ack ends the call with a Failure, at the same place of the stream |
| Endpoints.Worker.Judge | stdsc/stdsc_server.cpp:223-227 | a request is judged in the state in which the other workers have left the application, and adds itself to the own history |
| Endpoints.Worker.ServeOne | stdsc/stdsc_server.cpp:218-237 | one iteration takes exactly one request, judges it, and writes nothing but the answer, all of it unless sending fails |
| Endpoints.Worker.Exec | stdsc/stdsc_server.cpp:214-245 | whatever other workers evaluate in between, the loop serves exactly the requests on its stream, in order, each answered before the next; unless a call reports an error it ends only when the peer has closed, with every request answered |
| Application.EvalFits | stdsc/stdsc_callback_function.cpp:50-77 | whatever callbacks are registered under whatever codes, the container decides what the exchange allows: a code without a callback of its own group is just accepted |
| Application.OthersUntouched | stdsc/stdsc_callback_function_container.cpp:50-54 | an evaluation leaves state and record of all other connections alone |
| Application.RejectedIsNoOp | examples/multi_client/server/callback_function.cpp:55-86 | a rejected request changes no state, flag or record |
| Application.RecordIsMade | stdsc/stdsc_callback_function_container.cpp:50 | every evaluation, rejected or not, makes sure that its connection has a record, and makes no other |
| Application.RejectedStaysRejected | examples/multi_client/server/callback_function.cpp:55-86 | no other connection can make a rejected request acceptable |
| Application.Freshness | examples/multi_client/server/callback_function.cpp:32-86 | over every run, Computed implies that the sum is that of the current values modulo 2^32 |
| Application.ServedResultIsCurrent | examples/multi_client/server/callback_function.cpp:68-86 | a served result is the sum of the values last accepted, or says truly whether the client's number is |
| Application.Readiness | examples/multi_client/server/state.cpp:39-104 | the shared flags say that some connection sent A, respectively B; a connection has left StateInit if and only if it sent a value when both kinds had been sent by anyone |
| Application.SingleConnectionReadiness | examples/multi_client/server/state.cpp:39-57 | with one connection this means that both values were accepted on it |
| Application.ReadyWithoutOwnValues | stdsc/stdsc_server.cpp:47-51 | with two connections one of them is Ready without ever having sent A |
| Application.ComputedHistory | examples/multi_client/server/state.cpp:70-104 | a connection is Computed if and only if it has computed and sent no value since |
| Application.Acceptance | examples/multi_client/server/callback_function.cpp:32-86 | which requests are accepted, exactly, in terms of the earlier requests of all connections alone |
| Application.NeverBackToInit | stdsc/stdsc_state.cpp:40-51 | no connection returns to StateInit |
| Application.RecordIsolation | stdsc/stdsc_callback_function_container.cpp:48-55 | a connection's record is the template with its own accepted requests applied, whatever the interleaving |
| Application.ExamplesAreWellRegistered | examples/multi_client/server/main.cpp:31-52 | both examples register every callback under a code of its own group |
| ServerObjects.State.Set | examples/multi_client/server/state.cpp:39-104 | the event sets the flags of this object and replaces the context's state as the state machine says; a replacement is always a new object past StateInit |
| ServerObjects.StateContext.Set | stdsc/stdsc_state.cpp:48-51 | the context's own state object takes the event, and only it and the context change |
| ServerObjects.Container.SetCommonData | stdsc/stdsc_callback_function_container.cpp:98-112 | every connection with a record keeps it, every other one finds the new data |
| ServerObjects.Container.Eval | stdsc/stdsc_callback_function_container.cpp:48-96 | the evaluation on the objects is that of the application: same verdict, records, state and flags |
| ServerObjects.Container.Call | examples/multi_client/server/callback_function.cpp:32-86 | guards, record updates, replies and events of the callbacks; a rejected one changes nothing |
| ServerObjects.Server.constructor | stdsc/stdsc_server.cpp:97-106 | a new server's objects stand for the application's first state |
| ServerObjects.BootMultiClient | examples/multi_client/server/main.cpp:31-55 | the objects that the multi-client server makes stand for the first state of the application with its four callbacks and its data, the state Deployment starts from |
| ServerObjects.BootAddServer | examples/add_server/server/main.cpp:31-55 | likewise for the add server |
| ServerObjects.Server.Connect | stdsc/stdsc_server.cpp:43-53 | a new connection's context is a copy that points to the one initial state object |
| ServerObjects.Server.Evaluate | stdsc/stdsc_server.cpp:223-227 | an evaluation on one worker's context is one step of the whole server's application, aliasing included |
| Deployment.ScriptEval | examples/multi_client/server/callback_function.cpp:32-86 | the k-th call of a client's script is accepted with the right result in every state that other connections can have led to |
| Deployment.ReadFirst | examples/multi_client/server/callback_function.cpp:39 | a callback reads the first four bytes of a body, whatever follows them |
| Deployment.FreeMayDoAnything | stdsc/stdsc_client.cpp:107-263 | the model lets clients other than the scripted ones, and all workers, take any step that their connection allows |
| Deployment.MoveKeepsInv | examples/multi_client/client/main.cpp:72-106 | every step of any connection keeps every scripted client's connection on its script |
| Deployment.RunKeepsInv | examples/multi_client/client/main.cpp:72-106 | so does every run |
| Deployment.ScriptNeverRejected | examples/multi_client/client/main.cpp:72-106 | whatever all other connections do, a scripted client on an unbroken connection is never rejected and receives the right result |
| Deployment.DefaultAttempts | stdsc/stdsc_define.hpp:21-22 | the default interval and timeout make 2^32-1 attempts |
| Scripts.PlaceIs | examples/multi_client/client/main.cpp:72-101 | the client program goes on exactly as long as no call has failed and none has been rejected in all its attempts in a row; it has ended as many calls as there are outcomes that are not rejections, and repeats its present one as often as it has been rejected |
| Scripts.CallIsBlocking | stdsc/stdsc_client.cpp:338-461 | the program is a sequence of blocking calls: it makes the attempts that such a method makes, goes on exactly when it returns, and is given up when it throws |
| Scripts.ScriptIsFollowed | examples/multi_client/client/main.cpp:72-101 | in every reachable state, on a connection broken or not, a scripted client has made the calls of its program, each at its place, and at most four have ended other than by a rejection |
| Deployment.EvalResult | examples/add_server/server/callback_function.cpp:67-81 | the result is the sum in the one example and a comparison that holds in the other |
| Outcomes.AppOfRun | stdsc/stdsc_server.cpp:116-136 | in every reachable state of the whole system the application is the result of the requests evaluated on all connections, in their order, and every connection has its own share of them |
| Outcomes.EveryOutcomeIsRight | stdsc/stdsc_server.cpp:218-237 | the k-th call of any client, scripted or free, on an unbroken connection ends as the k-th request of that connection must: rejected if and only if not acceptable after the requests evaluated before it, otherwise with exactly the true result if it asks for one and no data if not |
| Outcomes.RepeatedCallStaysRejected | stdsc/stdsc_client.cpp:348-363 | in the whole system, a rejected call on an unbroken connection is rejected as long as calls under the same code follow on it, whatever all other clients do |
| MultiClientRun.UnderWayMoves | examples/multi_client/client/main.cpp:72-101 | a scripted client in the middle of a call can go on |
| MultiClientRun.NextCallMoves | examples/multi_client/client/main.cpp:72-101 | a scripted client between two calls can begin the next one |
| MultiClientRun.MoveFalls | examples/multi_client/client/main.cpp:72-101 | every step of such a client or its worker uses up some of what remains to be done |
| MultiClientRun.RunIsBounded | examples/multi_client/client/main.cpp:72-101 | the number of steps of a run is at most what remained to be done |
| MultiClientRun.CountVerified | examples/multi_client/client/main.cpp:173-176 | the loop computes the sum of all results modulo 2^32 |
| MultiClientRun.CountMeansAll | examples/multi_client/client/main.cpp:173-183 | results of 0 and 1 add up to the number of clients exactly if all are 1 |
| MultiClientRun.EveryRunEndsWell | examples/multi_client/client/main.cpp:72-106 | for any number of clients and any interleaving: every unbroken run is bounded, and at its end every client has made its calls and holds the right result |
| MultiClientRun.ScriptIsBounded | examples/multi_client/client/main.cpp:72-101 | what one scripted client and its worker do uses up what remained for them, beside any other clients and broken connections |
| MultiClientRun.EveryScriptEndsWell | examples/multi_client/client/main.cpp:72-106 | one scripted client beside any others: while its own connection holds, it takes at most 32000 steps, and when it can take no more it holds the right result |
| MultiClientRun.RunToTheEnd | examples/multi_client/client/main.cpp:72-106 | every unbroken run of scripted clients can be continued to a state in which nothing more can happen |
| MultiClientRun.EndExists | examples/multi_client/client/main.cpp:146-180 | there is such a run for any number of clients |
| MultiClientRun.VerifyEqualsThreads | examples/multi_client/client/main.cpp:173-183 | the program's count of verified clients equals the number of threads |
| Retry.BlockingCall | stdsc/stdsc_client.cpp:338-461 | end, number of attempts and total sleep of a blocking call as functions of the outcomes; the 32-bit counter never wraps |
| Retry.EndsAtFirstNotRejected | stdsc/stdsc_client.cpp:348-366 | the call ends with the first of its attempts that is not rejected, returning or throwing as that one does, having slept once for each before; if there is none it times out after all attempts and as many sleeps |
| Retry.LimitIsQuotient | stdsc/stdsc_client.cpp:32-39 | the number of attempts is that of the whole intervals, in seconds, that the timeout holds, or one for an interval of less than a second |
| Retry.SleepsLongEnough | stdsc/stdsc_client.cpp:338-366 | a call that times out has slept for more than the timeout less one interval |
| Retry.ReturnsIffNotAllRejected | stdsc/stdsc_client.cpp:348-366 | without a Failure it returns if and only if one of the first max attempts is not rejected, having made one attempt more than the rejections before it; otherwise it times out after max |
| Retry.SleepBound | stdsc/stdsc_client.cpp:32-39 | total sleep is at most twice the timeout for intervals of a second or more; shorter ones mean one attempt; no attempt at all exactly if the timeout is shorter than the interval |
| Retry.RejectedEveryTime | stdsc/stdsc_server.cpp:225-236 | a call rejected once is rejected on every retry of the connection's only user |
| Retry.RejectedOnceTimesOut | stdsc/stdsc_client.cpp:338-461 | so its blocking call times out after exactly the computed number of attempts, having slept after each |
| Shutdown.EndingIff | stdsc/stdsc_server.cpp:214-245 | the exception that ends a worker is the first that a round throws, or that of the closed peer if none does |
| Shutdown.ServerThread.Exec | stdsc/stdsc_server.cpp:214-245 | a worker takes its rounds in order and none after the first that throws; unless it is told to stop it stores that exception, and a stop that arrives while it is blocked need not keep it from that |
| Shutdown.ServerThread.Join | stdsc/stdsc_server.cpp:283-288 | joins a running worker once and rethrows what it has stored |
| Shutdown.ResourceContainer.Wait | stdsc/stdsc_server.cpp:65-76 | waiting for a running worker ends with its descriptor closed once and its exception stored |
| Shutdown.ResourceContainer.Release | stdsc/stdsc_server.cpp:78-85 | closes the descriptor the first time and does nothing after that |
| Shutdown.AcceptLoop | stdsc/stdsc_server.cpp:116-131 | the loop meets every arrival until it finds its flag set; accepted descriptors, which serve as connection ids, are pairwise distinct and in use until it ends; descriptors whose set-up fails are closed at once, and nothing else is closed |
| Shutdown.PeersMet | stdsc/stdsc_server.cpp:116-131 | every peer that is accepted has its worker, in the order of arrival, and there are no others |
| Shutdown.FailToSetUp | stdsc/stdsc_socket.cpp:284-352 | an accept that fails after the descriptor exists leaves the descriptor table as it was |
| Shutdown.WaitForAll | stdsc/stdsc_server.cpp:133-137 | every container is waited for and released, in the order of arrival |
| Shutdown.DestroyAll | stdsc/stdsc_server.cpp:57-60 | the destructors close nothing again |
| Shutdown.Exec | stdsc/stdsc_server.cpp:108-139 | every descriptor is closed exactly as often as it was handed out and no other is; every accepted connection's worker was joined once and has stored the exception that ended it |
| BufferStreams.BufferStream.constructor | stdsc/stdsc_buffer.cpp:97-100 | a stream made from a buffer shares its storage and starts at the beginning |
| BufferStreams.BufferStream.SeekOff | stdsc/stdsc_buffer.cpp:102-193 | positions and result of a seek, branch by branch, as the landing of the two areas |
| BufferStreams.BufferStream.SeekPos | stdsc/stdsc_buffer.cpp:195-198 | an absolute seek is one from the beginning |
| BufferStreams.SeekContract | stdsc/stdsc_buffer.cpp:102-193 | a seek names an offset from the beginning, from its side's position or from the last byte; it fails exactly if no side, or both relative to the position, were asked for or the number is outside the area, and moves nothing; otherwise it returns the number and moves exactly the selected positions there |
| BufferStreams.JointSeeksAgree | stdsc/stdsc_buffer.cpp:177-180 | the mismatch branch cannot be reached from joint seeks |
| BufferStreams.DoAll | stdsc/stdsc_buffer.cpp:200-206 | after any seeks, reads and writes both positions are inside the one area of unchanged size |
| BufferStreams.PbumpSafeIff | stdsc/stdsc_buffer.cpp:187-189 | every successful seek of the put position arrives where it says, from all positions of all areas of a size, if and only if the size is at most 2^31 |
| BufferStreams.PbumpOverflows | stdsc/stdsc_buffer.cpp:187-189 | in a larger one a seek that reports success puts it before the base |
| BufferStreams.TellThenSeek | stdsc/stdsc_buffer.cpp:102-193 | a position can be told exactly if it is before the end, and then it can be restored after any operations |
| BufferStreams.WriteThenRead | stdsc/stdsc_buffer.cpp:97-206 | bytes written from a sought position are read back from there and nothing else changes |
| BufferStreams.AsMuchAsFits | stdsc/stdsc_buffer.cpp:200-206 | writes and reads move as many bytes as there are before the end and touch nothing else |
| PlainData.NumberOfDigits | stdsc/stdsc_plaindata.hpp:44-47 | decimal printing and parsing are inverse, without leading zeros |
| PlainData.FirstDigitCounts | stdsc/stdsc_plaindata.hpp:44-60 | a digit counts ten times as much for every digit behind it |
| PlainData.SpacesAre | stdsc/stdsc_plaindata.hpp:52-58 | the six characters that an extraction skips |
| PlainData.SignedNumbers | stdsc/stdsc_plaindata.hpp:52-58 | signs and numbers out of range are read as by the GNU library |
| PlainData.SignsAlone | stdsc/stdsc_plaindata.hpp:52-58 | a sign counts at the start of a number only, and is none by itself |
| PlainData.ExtractToken | stdsc/stdsc_plaindata.hpp:52-58 | an extraction takes the longest token behind any whitespace and nothing else, and fails exactly if there is none or it cannot be read |
| PlainData.ExtractPrinted | stdsc/stdsc_plaindata.hpp:50-60 | a printed value behind any whitespace is extracted again, up to its line end |
| PlainData.SavedLines | stdsc/stdsc_plaindata.hpp:44-47 | the text of a vector is a line for the size and one for each element |
| PlainData.ElementsSize | stdsc/stdsc_plaindata.hpp:56-60 | what is loaded has as many elements as the size in front says |
| PlainData.PlainData.SaveToStream | stdsc/stdsc_plaindata.hpp:38-48 | appends size and elements, a line each, and nothing for an empty vector |
| PlainData.PlainData.LoadFromStream | stdsc/stdsc_plaindata.hpp:49-61 | loads what the stream holds, or leaves the stream bad; the vector gets as many elements as the size says, signed or not, even if they cannot be read |
| PlainData.SaveThenLoad | stdsc/stdsc_plaindata.hpp:38-61 | loading what was saved returns the vector and leaves what follows it |
| PlainData.LoadsAreWritten | stdsc/stdsc_plaindata.hpp:38-61 | loads return exactly the saved items that left something on the stream, in order, and fail when there are no more |
| PlainData.RoundTrip | stdsc/stdsc_plaindata.hpp:38-61 | k saves and k loads give the k vectors back if and only if none is empty |
| PlainData.UnsignedRoundTrip | stdsc/stdsc_plaindata.hpp:38-61 | in particular for unsigned integers of any width |
| Splitting.Split | stdsc/stdsc_utility.cpp:94-110 | the loop computes the specification and terminates |
| Splitting.RunsAreMaximal | stdsc/stdsc_utility.cpp:100-109 | a span is found if and only if it is a maximal run of non-delimiters |
| Splitting.RunsInOrder | stdsc/stdsc_utility.cpp:100-109 | the runs are in order and do not overlap |
| Splitting.SplitTheorem | stdsc/stdsc_utility.cpp:94-110 | tokens are exactly the maximal runs in order, non-empty and free of delimiters, and together the string without its delimiters |
| Splitting.NoDelimiters | stdsc/stdsc_utility.cpp:97-107 | without delimiters the whole string is the only token |
| Splitting.SplitJoined | stdsc/stdsc_utility.cpp:94-110 | splitting tokens joined with any separators returns them |

## Left out

- Socket set-up, socket options, `select` timeouts and name lookup: a connection is two byte streams, and `accept` returns a descriptor that is not in use.
- Concurrency inside a callback evaluation: each evaluation is one atomic step, although the container's maps are not locked in the source; the plain flag `force_finish` is read and written without a data race.
- Time: `usleep` arguments are added up, nothing waits.
- Logging, console output, texts of exceptions and their marshalling; file and string helpers other than `split`; key handling and options of the example programs.
- Raw pointers and object lifetime: records are typed instead of byte vectors, buffers are values or fixed arrays, and a stream's buffer is not resized. A buffer of fewer than four bytes that is read as a number counts as 0, where the source would read beyond it.
- The three state classes are one class told apart by a constant field, since a virtual call needs nothing more here.
- `Client::close`, the end of a client program and reconnecting: connections stay open to the end of a run in Deployment and MultiClientRun; the retry loop of `connect` has the shape of the blocking methods and is not repeated.
- A call for which the peer closes in the middle of a reply: any failure of a socket is one outcome, and the bytes read until then are dropped.
- Common data on all connections: no example uses them. A container whose per-connection data were never set hands its callbacks no record; here it hands them any.
- The per-connection record is inserted just before the callback runs, not before the body of the request is received; only a socket failure in between could tell.
- `kControlCodeFailed`: the client's branch is modelled and shown to be unreachable (`Alignment.Linearized`).
- Retry.BlockingCall: one method for the four blocking ones, which differ only in the exchange they repeat; the exchange is a parameter.
- Shutdown.Exec: an iteration of a worker is either answered or throws; what it does on the wire is in Endpoints. A run of the accept loop that never ends is not covered, since the claim is about its return.
- Shutdown.ServerThread.Exec: says nothing about a worker that is told to stop and ends between two requests, since the server tells none.
- Shutdown.ServerThread.Join: the worker's iterations take place when it is joined, since nothing it does before can be seen by the accept loop.
- PlainData.UnsignedRoundTrip: signs are read as the GNU library reads them, by wrapping around; character types, which print as characters, need a codec of their own.
- BufferStreams.BufferStream.Write: `sputn` and `sgetn` are those of the standard library and are modelled by their effect on the area.
