# PSCProxy, modelled and proved in Dafny

PSCProxy lets several set-top boxes share one smart card. A client holds a card emulator and sends the box's
requests over TCP to a server that owns the card reader. This project models the wire protocol, the server,
the client, the emulator's reset line and configuration, and the whole system of clients, strangers and server
joined by byte queues, and proves what the design promises of them.

`dafny verify dfyconfig.toml` checks everything.

## How the project is laid out

| file | module(s) | what it holds |
|---|---|---|
| Bytes.dfy | Bytes, Bits | bytes, the C++ integer conversions between them, the size field on bits |
| Protocol.dfy, Framing.dfy | Protocol, Framing | the packet language; cutting a stream into packets |
| SystemCalls.dfy | SystemCalls | the record of what the operating system answered, and what it says of a read |
| PacketData.dfy, ProtocolCode.dfy, Sockets.dfy | Packets, PacketRuns, ProtocolCode, Sockets | the code: the buffer class and runs of its operations, the prepare and parse functions, the socket loops |
| Machines.dfy | SessionMachine, ClientMachine, Account | what server session and client decide about a packet; the credentials built in |
| System.dfy | System | the composed system, clients, strangers and server, one step per system call |
| LockStep.dfy, Reachable.dfy | LockStep, Reachable | the invariant of every reachable state |
| Wired.dfy | Wired, Refinement | the system without network, and the refinement |
| Guarantees.dfy, Progress.dfy | WiredFacts, Guarantees, Progress | what follows for every run, and that every live connection can go on |
| ServerRuns.dfy, Sweep.dfy, Server.dfy | ServerModel, ServerRuns, SweepModel, Server | the server against arbitrary peers; its classes |
| Client.dfy, ClientCode.dfy | ResetLine, ClientModel, ClientCode | the reset line, the client's ticks, the classes |
| Schedules.dfy, Agreement.dfy | Schedules, Agreement, ServerRounds | the ticks of the classes are runs of steps of the system |
| Config.dfy | ConfigModel, ConfigCode | the emulator's configuration file |

There are four layers. The classes are proved against tick functions (`ServerModel.Tick`, `ClientModel.Tick`);
`Agreement` shows that each tick is a run of enabled steps of the composed system that takes the same bytes off the
queue, sends the same and ends the same; `Reachable.RunKeeps` proves the
lock-step invariant for all its runs; `Refinement.EndToEnd` maps those runs onto runs of `Wired`, a system with
no packets, queues or sessions.

System calls, the card, the reset line and the box are nondeterministic. A read returns an error, nothing, or
any number of the bytes that have arrived. What they answered is kept in ghost fields (`calls`, `answers`, `samples`,
`avails`, `polls`, `lost`, `results`), and the contracts say what each method does on exactly those answers. `poll` with a positive result reports some event; no descriptor is
handed out while it is open.

## Where the code departs from what it evidently means

The classes follow the code, and each departure has its exact condition.

- `parseCmdReply` does not clear its output, so an emulator is handed its command and then the answer
  (`Protocol.CmdReplyAloneIff`, `Guarantees.AnswerAloneIff`). The wired system is stated accordingly.
- `Socket::write` starts at the first byte in every call. `Sockets.EchoIff` says for every packet and every
  pattern of calls when it is right all the same, `Sockets.PatternHarmlessIff` which patterns are safe for all
  packets of a length, and `Sockets.PacketHarmlessIff` which packets are safe from all patterns. That it is right
  if and only if the first call takes the whole packet is false of packets that repeat themselves
  (`Sockets.GrantSurvivesCut`); it is true of those whose first byte does not recur (`Sockets.WrittenOnceIff`).
  `Sockets.WriteFromOffset` is the loop as meant.
- `parseAuthReply` looks at the byte behind the header whether or not there is one
  (`Protocol.ReplyOverreadMatters`).
- `closeInactiveClients` erases first and deletes what has moved into the gap, up to a stale end
  (`SweepModel.SweepRightIff`, `SweepModel.SweepDeletesSurvivor`). By the letter of C++ its iterator is invalid
  after any erase; the model takes the usual vector, which moves its pointers in place. `CloseInactiveClientsAsMeant` is the loop as
  meant; `ServerRuns` and the composed system use its result, `Server.PSCProxyServer.Tick` does not.
- The prepare functions cut the size of their buffer to sixteen bits and write past its end if the payload does
  not fit; their results say exactly when (`ProtocolCode.PrepareFrame`).
- `setResetDelay` assigns its field to itself (`ConfigModel.ResetDelayWinsIff`).
- `parseAuth` does not look at the length of the packet. Bytes behind the packet count as a mismatch, and
  `Protocol.OverreadMatters` says when that matters.
- A lone zero byte is sent as a reset request, but its answer is parsed as a command reply, so it closes the
  client (`Guarantees.LoneZeroByte`).

## Model

| member | source | states |
|---|---|---|
| Refinement.EndToEnd | src/client/pscproxy_client.cpp:133-188 | For any number of clients and of strangers that send anything at all, any interleaving of system calls and any fragmentation of reads and writes, with each write going on where the last call stopped and the sweep as meant, what the emulators and the reader see is a run of the system in which each emulator is wired straight to the reader and requests are served one at a time |
| Refinement.StepImage | src/client/pscproxy_client.cpp:36-76 | Each step of the composed system is invisible or exactly one act of the wired system, possible at that moment |
| Refinement.ClientImage | src/client/pscproxy_client.cpp:133-188 | The client's half: asking, delivering and resetting are the only visible client steps, and each matches its act |
| Refinement.ServerImage | src/server/pscproxy_server.cpp:88-129 | The server's half: the only visible server step is the card answering the command of the connection being served, an emulator's own or a stranger's |
| Guarantees.EmulatorView | src/server/pscproxy_server.cpp:111-123 | In every run, strangers or not, each emulator's commands reach the reader once each, unchanged and in order; at most one is pending; what it is handed is its own k-th command followed by the reader's answer to that command; every ATR it is handed is the reader's |
| Guarantees.ReaderIsSerial | src/server/pscproxy_server.cpp:111-116 | In every run the reader's history is a sequence of adjacent write/read pairs, each pair of one connection, whatever strangers do |
| Guarantees.Channels | src/client/pscproxy_client.cpp:36-131 | While both ends of a client's connection are live the two queues, partly written and partly read bytes hold at most one packet: going up it is the pending request, coming down a sane reply of the awaited type; a pending request is always on its way up, at the card or answered; an authentication travels before the session is AUTHORIZED and everything else after; an idle client between ticks has nothing in transit; a client past authorisation has an AUTHORIZED session |
| Guarantees.OnlyAuthorised | src/server/pscproxy_server.cpp:66-129 | In every run each operation at the reader that belongs to a client belongs to one whose credentials are the server's, and so does every authorised session of a client, every command sent and everything an emulator was handed, whatever has closed since |
| Guarantees.PastAuthorisation | src/client/pscproxy_client.cpp:89-131 | A client past authorisation used the server's credentials, even if its session is gone since; the ATR it cached and every ATR its emulator was handed are the one the reader was built with |
| Guarantees.AnswerAloneIff | src/lib/network/pscproxy_protocol.cpp:199-212 | Because parseCmdReply does not clear its output, the emulator is handed the reader's answer alone if and only if its command was empty |
| Guarantees.LoneZeroByte | src/client/pscproxy_client.cpp:168-185 | A lone zero byte closes the client however its read ends, hands the emulator nothing and never reaches the reader |
| Guarantees.NoZeroAtCard | src/client/pscproxy_client.cpp:168-178 | In no run does a client's connection write a lone zero byte to the reader |
| Guarantees.WriteWasAsked | src/server/pscproxy_server.cpp:111-113 | Every command written to the reader for a client's connection was sent by that client |
| WiredFacts.WiredRun | src/client/pscproxy_client.cpp:157-187 | The facts of EmulatorView hold in every run of the wired system, which gives that specification its meaning |
| Reachable.RunKeeps | src/server/pscproxy_server.cpp:143-169 | The invariant, lock-step for every client and the server's own part for every stranger, holds after every schedule |
| Reachable.StepKeeps | src/server/pscproxy_server.cpp:40-169 | Every enabled step of any process keeps the lock-step invariant of every connection |
| Reachable.ServerEffectOnReader | src/server/pscproxy_server.cpp:88-129 | A server step on one connection leaves every other connection's share of the reader's history alone and extends its own only by the exchange that just ended |
| LockStep.ReadCompletes | src/client/pscproxy_client.cpp:78-131 | When a client's read completes it holds exactly the reply the server sent for the pending request, with nothing left over on either queue |
| LockStep.FinishOutcome | src/client/pscproxy_client.cpp:89-188 | What becomes of the client, its cached ATR and its emulator, for each of its four reads |
| LockStep.ClientGivesUp | src/client/pscproxy_client.cpp:89-188 | A read that fails at any point closes the client and keeps the invariant, although three of the four return codes are ignored |
| LockStep.NothingInTransit | src/client/pscproxy_client.cpp:82-113 | A client about to send finds both queues and the partly read bytes empty, unless its session is dead |
| LockStep.RequestArrives | src/server/pscproxy_server.cpp:58-94 | When the server has read a packet it is the one request the client of that connection sent, whole, with nothing behind it |
| LockStep.DispatchAuth | src/server/pscproxy_server.cpp:75-83 | The prepared authentication is accepted if and only if user and password are the server's |
| LockStep.DispatchRequest | src/server/pscproxy_server.cpp:101-127 | A prepared reset request is answered with the ATR and a prepared command is run unchanged |
| LockStep.ServerHandles | src/server/pscproxy_server.cpp:66-129 | Handling a packet keeps the invariant; it leaves the reader alone or writes to it exactly the connection's next unexecuted command |
| LockStep.ServerReplies | src/server/pscproxy_server.cpp:115-122 | The reader's answer goes to the connection whose command was written, as its next exchange |
| Progress.ExchangeGoesThrough | src/client/pscproxy_client.cpp:157-187 | Every reachable run can be continued so that a given live connection is served any command with any card answer: it is the last thing the reader did, the emulator is handed command and answer, and the connection is at rest |
| Progress.ExchangeFromRest | src/client/pscproxy_client.cpp:157-187 | A run at rest can be continued so that exactly that exchange is added to the reader's history and exactly that answer to the emulator, and nothing else changes |
| Progress.ComesToRest | src/client/pscproxy_client.cpp:36-76 | Every reachable run can be continued so that a given live connection comes to rest, whatever every process is in the middle of |
| Progress.RestIff | src/client/pscproxy_client.cpp:36-76 | In every reachable state a connection can come to rest in some continuation of the run if and only if it is live: neither end closed, right credentials, and no lone zero byte pending |
| Progress.LostForever | src/server/pscproxy_server.cpp:40-56 | A connection that is lost stays lost in every continuation |
| Progress.ResetGoesThrough | src/client/pscproxy_client.cpp:134-156 | A run with an idle live client can be continued so that its emulator is handed the reader's ATR and the connection is at rest |
| Progress.NewClientGetsIn | src/client/pscproxy_client.cpp:36-131 | Every reachable run can be continued by a new client with the server's credentials that connects and comes to rest with the reader's ATR cached |
| Progress.StrangerIsServed | src/server/pscproxy_server.cpp:66-123 | Every reachable run can be continued by a stranger that knows the credentials: its packets, sent by hand, are read as sent, its command is run at the card and the two answers are exactly what it is sent |
| Progress.ClosedIsSwept | src/server/pscproxy_server.cpp:171-180 | Every run with a closed session can be continued so that it is swept away |
| SessionMachine.Dispatch | src/server/pscproxy_server.cpp:66-129 | A session accepts exactly in INIT on a packet parseAuth accepts; runs a command or sends the ATR exactly in AUTHORIZED on a sane packet of that type |
| ClientMachine.FailedReadCloses | src/client/pscproxy_client.cpp:89-188 | None of the three things a failed read can leave in the packet parses as the awaited reply, whichever of the four reads it was |
| ClientMachine.LoneZeroByteCloses | src/client/pscproxy_client.cpp:174-184 | The ATR sent in answer to a lone zero byte never parses as a command reply |
| ServerRuns.EveryRun | src/server/pscproxy_server.cpp:40-129 | Against arbitrary peers and any order of accepts, ticks and sweeps: every card access, ATR and reply on a connection comes after a packet read on that same connection that parseAuth accepts for the server's credentials; each answer to an authentication says what parseAuth says of its packet, and there is at most one; write, read and reply of an exchange are never separated; each connection's replies are its own answers in order; every ATR sent is the reader's; live descriptors are distinct |
| ServerRuns.StepKeeps | src/server/pscproxy_server.cpp:143-180 | Accepting, ticking any one session on anything it may observe, and sweeping as meant each keep the log facts of EveryRun, the distinct descriptors and the tie between a session's state and its log |
| ServerRuns.ClosedIsForever | src/server/pscproxy_server.cpp:50-51 | Nothing is ever again done for a connection that is closed or swept away |
| ServerRuns.AfterTick | src/server/pscproxy_server.cpp:143-180 | After a whole server tick with the sweep as meant the vector holds exactly the sessions that are not CLOSED, in their old order; the log is that of the accepts and ticks, and the invariant, distinct descriptors included, holds |
| ServerRuns.SweepLeaves | src/server/pscproxy_server.cpp:171-180 | The sweep as meant leaves a connection if and only if it is not CLOSED, in the old order, and does nothing else |
| ServerRuns.Welcome | src/server/pscproxy_server.cpp:66-86 | A connection with a descriptor of its own can be accepted as a new INIT session behind the others, and the first packet read on it is answered with yes and authorises it if parseAuth accepts it, and is otherwise answered with no and closes it |
| ServerRuns.CommandIsRun | src/server/pscproxy_server.cpp:111-123 | An authorised session that reads a sane command writes its payload to the card, reads the card's answer and sends that on, and stays as it is |
| ServerRuns.ResetIsAnswered | src/server/pscproxy_server.cpp:101-108 | An authorised session that reads a sane reset request sends the ATR and stays as it is |
| ServerRuns.TickActs | src/server/pscproxy_server.cpp:66-129 | The only four things one tick of a session can do, with the state each needs and leaves, the packet answered or the command run being the one read |
| ServerModel.OtherPacketsClose | src/server/pscproxy_server.cpp:101-127 | An authorised session survives a packet if and only if it is a sane reset or command request; otherwise it closes and does nothing |
| Agreement.ClientTickStarts | src/client/pscproxy_client.cpp:36-188 | A tick begins with one enabled client step that sends what the model sends; then the tick is over as the model says, or the client waits for the first byte of an answer |
| Agreement.ClientReadEnds | src/client/pscproxy_client.cpp:78-188 | Once its read has taken its last byte, in whatever pieces, the step that ends the read is enabled and leaves fields and emulator as the model's tick does |
| Agreement.ClientTickEnds | src/client/pscproxy_client.cpp:78-188 | With the bytes the read will take at the front of the queue, whole packet or not, there are enabled receiving steps and a last one that take exactly these bytes and end as the model's tick does |
| Agreement.SessionTickIsSteps | src/server/pscproxy_server.cpp:40-129 | With the bytes a session's tick takes at the front of the queue there are enabled server steps, for no data, a read that fails half-way and a packet alike, that take exactly these bytes and leave state, bytes sent and card accesses as the model's tick does |
| Schedules.ClientArrives | src/lib/network/socket.cpp:69-102 | A blocked client read can take any further bytes of its packet, leaving the rest of the queue |
| Schedules.ServerArrives | src/lib/network/socket.cpp:69-102 | The same for the server |
| Schedules.ClientInSystem | src/client/pscproxy_client.cpp:36-76 | Enabled steps of one client continue any run of the system, and change that link alone |
| Schedules.ServerInSystem | src/server/pscproxy_server.cpp:164-169 | Enabled server steps on one connection continue any run in which the server is not busy with another, and change that link and the reader alone |
| Schedules.ClientWrites | src/lib/network/socket.cpp:42-55 | A client's write, wherever it stands, can be carried to its end, which leaves exactly its bytes in the queue |
| Schedules.ServerWrites | src/lib/network/socket.cpp:42-55 | The same for the server |
| Schedules.ClientPutsPieces | src/lib/network/socket.cpp:42-55 | A client can write its request in any pieces whatever, and they are what arrives in the queue |
| Schedules.ServerSendsPieces | src/lib/network/socket.cpp:42-55 | The same for the server |
| Schedules.ClientReceivesPieces | src/lib/network/socket.cpp:69-102 | A client can take what is in its queue in any pieces that do not reach past its header or its body |
| Schedules.ServerTakesPieces | src/lib/network/socket.cpp:69-102 | The same for the server |
| Schedules.NobodyWaits | src/server/pscproxy_server.cpp:143-169 | What a client can do, and what the server can do with the connection it is busy with, it can do whatever the others are doing; a stranger can send anything at any time |
| ServerRounds.RoundIsTicks | src/server/pscproxy_server.cpp:164-169 | A round ticks each session once with its own observation in vector order, and logs what each does one after the other |
| ServerRounds.RoundAtCard | src/server/pscproxy_server.cpp:164-169 | The card accesses in the model's log of a round are the ones the server class makes in TickClients |
| ServerRounds.ServerTickIs | src/server/pscproxy_server.cpp:143-180 | After a whole server tick each old session and each newly accepted one has been ticked once with its own observation, in vector order; every one that is then not CLOSED is left, in that order, and nothing else; the log grows by what they did one after the other |
| SweepModel.SweepRightIff | src/server/pscproxy_server.cpp:171-180 | On a vector whose erase moves the elements in place, the sweep as written leaves exactly the live sessions and deletes exactly the closed ones once each if and only if no session but the last one is closed |
| SweepModel.SweepDeletesSurvivor | src/server/pscproxy_server.cpp:171-180 | With three sessions and the first closed, the sweep as written deletes a live session, leaves it in the vector and loses the closed one |
| SweepModel.KeepMembers | src/server/pscproxy_server.cpp:171-180 | What a sweep is to leave holds every live session and no closed one |
| SweepModel.KeepInOrder | src/server/pscproxy_server.cpp:171-180 | What is kept is in the order it was in |
| SweepModel.DropMembers | src/server/pscproxy_server.cpp:171-180 | What is dropped is every closed session and no live one, and dropped and kept are together as many as there were |
| SweepModel.Erase | src/server/pscproxy_server.cpp:171-180 | Erasing moves each later element down by one and leaves the old last cell as it was |
| Server.PSCProxyServer.CloseInactiveClients | src/server/pscproxy_server.cpp:171-180 | The loop as written, on a vector whose erase moves the pointers in place, computes the vector and the deleted sessions of SweepModel.SweepFrom, or touches a deleted session or erases past the end exactly where that says so |
| Server.PSCProxyServer.CloseInactiveClientsAsMeant | src/server/pscproxy_server.cpp:171-180 | The loop as meant leaves the live sessions in their order and deletes each closed one once |
| Server.PSCProxyServer.constructor | src/server/pscproxy_server.cpp:131-134 | A new server has no sessions and has closed none |
| Server.PSCProxyServer.HandleNewClients | src/server/pscproxy_server.cpp:154-162 | Every connection the listening socket gives becomes a new INIT session behind the old ones, in the order of the queue, with its own descriptor; it goes on until, and stops as soon as, there is none to give |
| Server.PSCProxyServer.TickClients | src/server/pscproxy_server.cpp:164-169 | Each session does what the model's tick does on what it observed, in vector order, and the reader's operations are extended by those of the sessions one after the other |
| Server.PSCProxyServer.Tick | src/server/pscproxy_server.cpp:143-152 | Accepts until there is nobody to accept, then ticks old and new sessions once each, sockets and reader included, then sweeps; the result is the live sessions and each closed one deleted once if and only if none but the last is closed, and then the server is valid, its descriptors are distinct from those still queued, and it can be ticked again |
| Server.Listener.ConnectWaitingClient | src/server/server_socket.cpp:69-80 | Gives the next queued connection or none |
| Server.Session.constructor | src/server/pscproxy_server.cpp:28-31 | A session starts in INIT with its descriptor, reader and credentials |
| Account.BuiltIn | src/server/pscproxy_server.cpp:158-159 | The credentials built into server and client are Prezu and PrezuPass, and the server lets the client in |
| Server.Session.TickOnce | src/server/pscproxy_server.cpp:40-56 | State and reader after one tick are those of the model's tick on what was observed. Unless the session is closed, select is asked once; nothing is observed exactly when it answers 0; otherwise a packet is read, which fails exactly when the clock struck or a read brought nothing, and then the model's answer is written, as the read and write loops deliver it, partial writes included. A closed session makes no call |
| Server.Session.CheckAuth | src/server/pscproxy_server.cpp:66-86 | The same for a session in INIT: it acts exactly when select does not answer 0, and never touches the reader |
| Server.Session.HandleClientRequests | src/server/pscproxy_server.cpp:88-129 | The same for an authorised session: it acts exactly when select does not answer 0 |
| Server.Session.Answer | src/server/pscproxy_server.cpp:101-128 | Once a packet has been read, all of it: the ATR, the card exchange with that command and that answer, or close, and the one packet written for it |
| ResetLine.OneRequestPerEdge | src/lib/cardemulator/season.cpp:168-184 | A caller that polls once after each sample hears a request exactly at the samples where the line rises, taking it as high before the first |
| ResetLine.NoRequestInvented | src/lib/cardemulator/season.cpp:168-184 | In any interleaving of samples and polls the requests heard, with the pending one, never exceed the rising edges |
| ClientModel.ResetsAreEdges | src/client/pscproxy_client.cpp:59-62 | Over any run of ticks of a client with a fresh emulator, whatever states it goes through, the ticks that send a reset are exactly the idle ones at which the line, as sampled by idle ticks, rises: none lost, doubled or overtaken by data |
| ClientModel.IdleTickPolls | src/client/pscproxy_client.cpp:133-187 | A tick with a pending reset sends the reset request and hands on its answer and nothing else; only without one is the emulator's data sent |
| ClientCode.Season.constructor | src/lib/cardemulator/season.cpp:37-46 | No reset is pending and the line counts as high |
| ClientCode.Season.Tick | src/lib/cardemulator/season.cpp:175-184 | Samples the line once, and what is remembered is a low-to-high transition to that sample |
| ClientCode.Season.ResetRequested | src/lib/cardemulator/season.cpp:168-173 | Reports a pending reset and forgets it |
| ClientCode.Season.Read | src/lib/cardemulator/season.cpp:107-148 | The result is the next bytes of the line, one for each time poll says there is one; it stops at the first time poll says no, or after 512 |
| ClientCode.Season.Write | src/lib/cardemulator/season.cpp:150-166 | The line is flushed once, the data is written once, and then its echo is read once; what the line loses is what was flushed and what was read |
| ClientCode.PSCProxyClient.constructor | src/client/pscproxy_client.cpp:25-30 | A client starts in INIT with nothing cached and with the credentials built in |
| ClientCode.PSCProxyClient.TickOnce | src/client/pscproxy_client.cpp:36-76 | All fields, what the emulator is handed, and the calls on the socket with the bytes they take and put, under failed reads and partial writes too, are those of the model's tick; a client that awaits an entry or the ATR acts exactly when select does not answer 0, an idle one samples the line once, asks for data exactly when no reset is pending, and a command sent is all of what the emulator's read gave; the answer is false exactly in CLOSED |
| ClientCode.PSCProxyClient.Authorize | src/client/pscproxy_client.cpp:82-87 | Sends the prepared credentials once and reads nothing |
| ClientCode.PSCProxyClient.CheckAuthReply | src/client/pscproxy_client.cpp:89-103 | Reads exactly when select does not answer 0, and then moves to AUTHORIZED exactly when what the read left parses as a positive reply and closes otherwise |
| ClientCode.PSCProxyClient.RequestATR | src/client/pscproxy_client.cpp:105-113 | Sends a reset request once, reads nothing and always moves to AWAITING_ATR |
| ClientCode.PSCProxyClient.CacheATR | src/client/pscproxy_client.cpp:115-131 | Reads exactly when select does not answer 0, and then caches the ATR and goes idle exactly when a whole sane reset reply was read and closes otherwise |
| ClientCode.PSCProxyClient.HandleEmulatorRequests | src/client/pscproxy_client.cpp:133-188 | The reset is polled once and goes before any data; without one the emulator is asked once for data, which is read and sent exactly when it says there is some |
| ClientCode.PSCProxyClient.HandleReset | src/client/pscproxy_client.cpp:134-156 | Writes one reset request, then reads its answer, and hands the emulator the ATR of a sane reply, or closes |
| ClientCode.PSCProxyClient.Exchange | src/client/pscproxy_client.cpp:141-144 | The request is written first and the answer read behind it into the same packet object, which holds what a read leaves of the request |
| ClientCode.PSCProxyClient.PrepareRequest | src/client/pscproxy_client.cpp:163-176 | A lone zero byte becomes a reset request and anything else a command request with all the bytes |
| ClientCode.PSCProxyClient.HandleCommand | src/client/pscproxy_client.cpp:157-187 | Writes all of what the emulator's read gave as one command, or a lone zero byte as a reset request, then reads the answer and hands back what parseCmdReply makes of it, or closes |
| Protocol.GetSizeIsBigEndian | src/lib/network/pscproxy_protocol.cpp:242-244 | Despite signed chars and the cut to sixteen bits, the size read is the big-endian value of the two bytes |
| Protocol.GetSizeOnBits | src/lib/network/pscproxy_protocol.cpp:242-244 | The code's shift, masks and or on promoted signed chars give that size for all pairs of chars |
| Protocol.SetSizeOnBits | src/lib/network/pscproxy_protocol.cpp:237-240 | The code's shift and mask give the two chars of every size |
| Protocol.SizeRoundTrip | src/lib/network/pscproxy_protocol.cpp:237-244 | Every 16-bit size is read back as written |
| Protocol.DeclaredSizeFits | src/lib/network/pscproxy_protocol.cpp:122-166 | The declared size is the real one if and only if the payload has at most 65532 bytes; one byte more declares zero |
| Protocol.FrameRoundTrip | src/lib/network/pscproxy_protocol.cpp:107-212 | A built packet of at most 65532 payload bytes gives back its payload to the parser of its own type and is refused by all others |
| Protocol.FrameSaneIff | src/lib/network/pscproxy_protocol.cpp:246-272 | A built packet is sane if and only if its payload has at most 65532 bytes |
| Protocol.OneTypeOnly | src/lib/network/pscproxy_protocol.cpp:246-272 | No packet passes the sanity check for two types |
| Protocol.PacketsInNumerals | src/lib/network/pscproxy_protocol.cpp:25-197 | The six packets byte by byte: size high byte first, the type numbers 0 to 5, version 0, granted 0 and refused 1, and the payload, for all payloads up to the bound |
| Protocol.SaneInNumerals | src/lib/network/pscproxy_protocol.h:38-45 | A packet is sane for a type if and only if its first two bytes give its size and its third is that type's number from 0 to 5 |
| Protocol.ParsersInNumerals | src/lib/network/pscproxy_protocol.cpp:51-212 | Byte by byte, what each of the six parsers accepts and gives |
| Protocol.CmdReplyAloneIff | src/lib/network/pscproxy_protocol.cpp:199-212 | parseCmdReply appends the reply to its output, which is the reply alone if and only if the output was empty |
| Protocol.AuthReplyRoundTrip | src/lib/network/pscproxy_protocol.cpp:84-105 | An authentication reply is read back as it was meant |
| Protocol.AuthRoundTrip | src/lib/network/pscproxy_protocol.cpp:25-82 | For NUL-free credentials up to the 16-bit bound, a prepared authentication is accepted if and only if name and password are equal to those wanted, shared prefixes included |
| Protocol.CredentialsPrefix | src/lib/network/pscproxy_protocol.cpp:57-79 | NUL-terminated credentials are a start of others if and only if both parts are equal |
| Protocol.CredentialsAt | src/lib/network/pscproxy_protocol.cpp:57-79 | The accepted payloads are those that start with the version byte, the name, a NUL, the password and a NUL |
| Protocol.OverreadMatters | src/lib/network/pscproxy_protocol.cpp:57-79 | parseAuth's answer depends on memory behind the packet if and only if the payload is a proper prefix of the credentials wanted |
| Protocol.OverreadHappens | src/lib/network/pscproxy_protocol.cpp:57-79 | A well-formed packet with the version byte and nothing more is such a packet, whatever the credentials |
| Protocol.ReplyOverreadMatters | src/lib/network/pscproxy_protocol.cpp:97-105 | parseAuthReply's answer depends on memory behind a sane packet if and only if the packet is a bare header |
| Protocol.ReplyOverreadHappens | src/lib/network/pscproxy_protocol.cpp:97-105 | The packet 0, 3, 1 is one |
| ProtocolCode.SetSize | src/lib/network/pscproxy_protocol.cpp:237-240 | The two chars written are those of the size |
| ProtocolCode.Append | src/lib/network/pscproxy_protocol.cpp:162-164 | The filling loop leaves the buffer if and only if the bytes do not fit, and otherwise appends exactly them |
| ProtocolCode.PrepareFrame | src/lib/network/pscproxy_protocol.cpp:152-166 | The pointer stays in the buffer if and only if the payload has at most 65532 bytes, and then the buffer is exactly the frame of the payload |
| ProtocolCode.PrepareAuth | src/lib/network/pscproxy_protocol.cpp:25-49 | The pointer stays in the buffer if and only if name and password fit the 16-bit bound, and then the buffer is exactly the authentication packet |
| ProtocolCode.PrepareAuthReply | src/lib/network/pscproxy_protocol.cpp:84-95 | The buffer is exactly the authentication reply |
| ProtocolCode.PrepareResetRequest | src/lib/network/pscproxy_protocol.cpp:107-115 | The buffer is exactly the reset request |
| ProtocolCode.PrepareResetReply | src/lib/network/pscproxy_protocol.cpp:122-134 | The buffer is the reset reply for the ATR cut to a sixteen-bit length, if and only if that length leaves room for the header |
| ProtocolCode.PrepareCmdRequest | src/lib/network/pscproxy_protocol.cpp:152-166 | The buffer is exactly the command request, if and only if the command has at most 65532 bytes |
| ProtocolCode.PrepareCmdReply | src/lib/network/pscproxy_protocol.cpp:184-197 | The buffer is exactly the command reply, if and only if the reply has at most 65532 bytes |
| ProtocolCode.CheckPacketSanity | src/lib/network/pscproxy_protocol.cpp:246-272 | True exactly for a packet of at least three bytes whose declared size is its size and whose type byte is the one asked for |
| ProtocolCode.ParseAuth | src/lib/network/pscproxy_protocol.cpp:51-82 | The pointer walk accepts exactly the packets whose payload starts with the NUL-terminated credentials |
| ProtocolCode.MatchString | src/lib/network/pscproxy_protocol.cpp:64-79 | One comparison loop succeeds exactly when the packet continues with the string and its NUL, and stops behind them |
| ProtocolCode.ParseAuthReply | src/lib/network/pscproxy_protocol.cpp:97-105 | True exactly for a sane reply whose payload begins with the byte that says authorised; a bare header counts as a mismatch |
| ProtocolCode.ParseResetRequest | src/lib/network/pscproxy_protocol.cpp:117-120 | True exactly for a sane reset request |
| ProtocolCode.ParseResetReply | src/lib/network/pscproxy_protocol.cpp:136-150 | The ATR replaces the output; on failure the output is as before |
| ProtocolCode.ParseCmdRequest | src/lib/network/pscproxy_protocol.cpp:168-182 | The command replaces the output; on failure the output is as before |
| ProtocolCode.ParseCmdReply | src/lib/network/pscproxy_protocol.cpp:199-212 | The reply is appended to the output; on failure the output is as before |
| Framing.DecodeFlatten | src/lib/network/pscproxy_protocol.cpp:214-235 | A concatenation of packets decodes to exactly those packets |
| Framing.NeedInNumerals | src/lib/network/pscproxy_protocol.cpp:214-235 | A read takes the declared number of bytes, high byte first, and at least three |
| Framing.DecodeFrom | src/lib/network/pscproxy_protocol.cpp:214-235 | A stream that starts with packets decodes to these and then to whatever follows |
| Sockets.ReadPackets | src/lib/network/pscproxy_protocol.cpp:214-235 | Calling read again and again on a stream of packets and whatever follows them, with the bytes split in any way, yields the first of the packets sent, and all asked for if and only if in no call the clock struck or a read brought nothing; the stream left then starts with the next; on success and failure alike what was read is the start of what the stream decodes to |
| Framing.UniquelyDecodable | src/lib/network/pscproxy_protocol.cpp:214-235 | Two packet sequences with the same bytes are the same sequence |
| Framing.StreamRoundTrip | src/lib/network/pscproxy_protocol.cpp:214-235 | Whatever follows on the stream, the packets read so far are the first ones sent and the stream goes on with the next |
| Framing.PacketPrefix | src/lib/network/pscproxy_protocol.cpp:214-235 | No packet is a proper prefix of another |
| Framing.ReadIsSaneIff | src/lib/network/pscproxy_protocol.cpp:214-272 | A packet read is sane for some type if and only if its declared size is at least 3 and its type byte at most 5 |
| Framing.FailedReadIsNoPacket | src/lib/network/pscproxy_protocol.cpp:214-235 | A packet object that was empty or held a request of another type is not sane for the awaited type after a failed read |
| SystemCalls.RanShortIff | src/lib/network/socket.cpp:69-102 | A run of clock checks and reads, each for all that is missing, falls short if and only if the clock struck or a read brought nothing |
| SystemCalls.PacketShortIff | src/lib/network/pscproxy_protocol.cpp:214-235 | The same for a whole packet, header and body |
| Sockets.NewDataInSocket | src/lib/network/socket.cpp:104-119 | Asks select once, and says no exactly when it answers 0 |
| Sockets.SizedRead | src/lib/network/socket.cpp:69-102 | Turn by turn it looks at the clock and reads for all the bytes missing, until nothing is missing, the clock strikes or a read brings nothing; it fails if and only if one of the last two happened, however the bytes are split; it then gives -1, no data and has taken fewer bytes, and otherwise gives exactly the next bytes of the stream, as many as asked for |
| Sockets.SocketIsValid | src/lib/network/socket.cpp:121-144 | Never says yes under poll's contract, which is why a read of no bytes ends the read loop |
| Sockets.ReadPacket | src/lib/network/pscproxy_protocol.cpp:214-235 | The bytes taken off the front of the stream decide the result: a whole packet of max(3, declared size) bytes gives its size as the code and is in the packet object; fewer give a negative code and leave the object untouched or holding the header alone; and the code is negative if and only if the clock struck or a read brought nothing |
| Sockets.Write | src/lib/network/socket.cpp:42-55 | The loop as written puts on the wire a prefix of the packet for each call, each from the first byte and for the whole size, until the counts add up to the size; it is exactly the packet when each call takes everything |
| Sockets.EchoLength | src/lib/network/socket.cpp:42-55 | The bytes on the wire number the sum of the return codes, which is what write returns |
| Sockets.EchoIff | src/lib/network/socket.cpp:42-55 | For every packet and every pattern of partial writes, the wire holds exactly the packet if and only if the counts add up to its size and each call puts out the bytes that were due |
| Sockets.PacketHarmlessIff | src/lib/network/socket.cpp:42-55 | A packet survives every pattern of partial writes if and only if it has at most one byte |
| Sockets.GrantSurvivesCut | src/lib/network/socket.cpp:42-55 | The granting authentication reply, taken as three bytes and then one, arrives intact although the first call does not take everything |
| Sockets.PatternHarmlessIff | src/lib/network/socket.cpp:42-55 | A pattern of partial writes is harmless for all packets of a length if and only if its first call takes everything |
| Sockets.ResetRequestCut | src/lib/network/socket.cpp:42-55 | A reset request taken as one byte and then two goes out as 0, 0, 3 |
| Sockets.WriteFromOffset | src/lib/network/socket.cpp:42-55 | The loop as meant puts exactly the packet on the wire for every pattern of partial writes and returns its size |
| Packets.PacketData.constructor | src/lib/network/packet_data.cpp:25-27 | A new packet is empty and owns no buffer |
| Packets.PacketData.FromBuffer | src/lib/network/packet_data.cpp:34-40 | Holds the bytes given, in a buffer of its own |
| Packets.PacketData.Copy | src/lib/network/packet_data.cpp:42-48 | Holds the same bytes in a buffer of its own |
| Packets.PacketData.Clear | src/lib/network/packet_data.cpp:56-63 | Is empty and owns no buffer |
| Packets.PacketData.SetData | src/lib/network/packet_data.cpp:74-81 | Holds the bytes given, in a buffer of its own |
| Packets.PacketData.Assign | src/lib/network/packet_data.cpp:97-113 | Holds the other's bytes in a buffer of its own; assigning a packet to itself changes nothing |
| Packets.PacketData.Plus | src/lib/network/packet_data.cpp:83-95 | The sum holds the bytes of the one and then of the other, in a buffer of its own |
| Packets.CopyRange | src/lib/network/packet_data.cpp:87-92 | The copying loop appends exactly the range copied |
| PacketRuns.RunAll | src/lib/network/packet_data.cpp:25-113 | Any run of packet operations on any number of packets, the end of temporaries included, leaves in them exactly what the same run on byte sequences gives; the size is always the length of the buffer and no two packets share one |
| PacketRuns.Perform | src/lib/network/packet_data.cpp:25-113 | The same for one operation of any kind |
| PacketRuns.Change | src/lib/network/packet_data.cpp:56-113 | Clearing, setting or assigning one packet leaves the bytes of all others as they were and shares no buffer with them |
| PacketRuns.HeaderThenBody | src/lib/network/pscproxy_protocol.cpp:222-232 | data = data + body leaves header and then body in the one packet and the body in the other |
| ConfigModel.LastWins | src/lib/cardemulator/card_emulator_config.cpp:31-61 | Loading succeeds if and only if every line is valid; then device name, transmit delay and type have the value their last line gives or else the default, and the reset delay always has its default |
| ConfigModel.ResetDelayWinsIff | src/lib/cardemulator/card_emulator_config.h:36 | The last reset delay given takes effect if and only if it equals the default |
| ConfigModel.LineFacts | src/lib/cardemulator/card_emulator_config.cpp:131-182 | A line is accepted if and only if it is valid, and changes exactly the setting it names |
| ConfigModel.LineForms | src/lib/cardemulator/card_emulator_config.cpp:131-163 | A line key=value is that setting, one without an equals sign is malformed, and one that is empty, or has a comment sign, space or tab in front, is skipped |
| ConfigModel.Words | src/lib/cardemulator/card_emulator_config.cpp:34-182 | Each of the known keys, spelt out, sets its own field and no other; season and dummy are the two types and any other name is none; the defaults |
| ConfigModel.NumberIff | src/lib/cardemulator/card_emulator_config.cpp:103-118 | A text is a number if and only if it consists of decimal digits |
| ConfigModel.RestIgnored | src/lib/cardemulator/card_emulator_config.cpp:132-142 | What follows a comment sign, space or tab has no effect |
| ConfigModel.ForeignKeyIgnored | src/lib/cardemulator/card_emulator_config.cpp:165-170 | A key without the emulator's prefix has no effect |
| ConfigModel.DecimalRoundTrip | src/lib/cardemulator/card_emulator_config.cpp:103-118 | The decimal text of any number is read as that number modulo 2^32 |
| ConfigModel.Clean | src/lib/cardemulator/card_emulator_config.cpp:131-142 | The longest start of the line without comment sign, space or tab |
| ConfigModel.Key | src/lib/cardemulator/card_emulator_config.cpp:147-156 | The text before the first equals sign |
| ConfigCode.CardEmulatorConfig.constructor | src/lib/cardemulator/card_emulator_config.cpp:34-38 | The defaults |
| ConfigCode.CardEmulatorConfig.ReadLines | src/lib/cardemulator/card_emulator_config.cpp:50-60 | The settings after the loop over the lines are those of the fold, or it fails exactly where the fold does |
| ConfigCode.CardEmulatorConfig.ParseLine | src/lib/cardemulator/card_emulator_config.cpp:131-163 | The three character loops split the line as specified, and the settings change accordingly |
| ConfigCode.CardEmulatorConfig.HandleKeyValue | src/lib/cardemulator/card_emulator_config.cpp:165-182 | The one setting named is changed, or none |
| ConfigCode.CardEmulatorConfig.SetEmulatorType | src/lib/cardemulator/card_emulator_config.cpp:120-129 | The type is set for the two known names; any other name fails and changes nothing |
| ConfigCode.CardEmulatorConfig.SetResetDelay | src/lib/cardemulator/card_emulator_config.h:36 | The field keeps its value whatever is passed |
| ConfigCode.ReadUInt | src/lib/cardemulator/card_emulator_config.cpp:103-118 | The loop computes the number modulo 2^32, or fails at the first character that is no digit |

## Left out

- Refinement.EndToEnd: in the composed system a write goes on where the last call stopped, as `Sockets.WriteFromOffset` does, and a closed session is swept as meant; `Sockets.ResetRequestCut` and `SweepModel.SweepDeletesSurvivor` show what the loops as written can do instead. Where the kernel takes each write whole, the write loop as written is the one modelled.
- Guarantees.Channels: its runs are those of the composed system, so the same holds here.
- Server.Session.TickOnce: the reader's ATR has at most 65532 bytes, as a longer one overruns the reply's buffer; the same holds for the server that owns the reader.
- ProtocolCode.CheckPacketSanity: a packet of one or two bytes counts as a mismatch where the code looks past its end; `PSCProxyProtocol::read` never delivers one.
- Server.PSCProxyServer.Tick: says nothing about the vector where a session other than the last is closed, beyond that the sweep is then wrong; `CloseInactiveClients` says what happens.
- ServerRuns.AfterTick: uses the sweep as meant.
- Commands and card answers in the composed system have at most 65532 bytes; the readers and emulators of the repository stop at 512.
- The composed system ticks sessions in any order and may poll at any time, which includes the code's vector order.
- The vector of sessions is a sequence; its memory is modelled as cells for the sweep only, without reallocation.
- Clocks and delays: the ten-second limit of the sized read may strike at any turn; `usleep`, select time-outs and baud rates have no counterpart.
- Real sockets, select, poll, accept, bind, termios, ioctl and file input are nondeterministic, with the contracts given above.
- A failing write throws and stops the process; so do the exceptions of the serial port.
- The Phoenix reader and the dummy reader and emulator, replaced by a reader with a fixed ATR and arbitrary answers.
- Both main programs, signal handling, TLS initialisation, `test_serial`, debug output and disabled code.
- The unsized `Socket::read`, `getData` and the string constructor of PacketData, which the protocol does not use.
- Null emulators and sockets, descriptor 0, out-of-memory, and the server's destructor, which drops sessions without deleting them.
- The configuration file is the sequence of its lines; a file that cannot be opened is not part of the model.
- Copying a configuration and `createNewEmulator` are out of scope: no property here depends on them.
