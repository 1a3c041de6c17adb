# Verification of the poker backend

A Dafny model of the server and the client of this repository, with proofs. It covers three
layers and their composition:

- the framed byte protocol: messages with a four-byte decimal header in a reused 2048-byte
  buffer, the read loop and the write queue that both ends run;
- the account table and the sessions that register, login and unregister work on;
- the closed system of one server and any number of clients, joined by byte streams.

`dafny verify dfyconfig.toml` checks everything.

## How it is built

| file | what it holds |
|---|---|
| Framing.dfy | headers (`sprintf("%4d")`, `strncat`, `atoi`), frames, and the meaning of a byte stream |
| ReadLoop.dfy, WriteQueue.dfy | the two asynchronous machines, alone, on arbitrary streams |
| Message.dfy | the message class over its array |
| Api.dfy | requests, responses, codes; parser, printer and hash as parameters |
| Accounts.dfy, AccountRuns.dfy | the three scans on rows, the email directory they implement, whole runs |
| ServerMachine.dfy | the server against clients that may send anything |
| GameServer.dfy | the server's classes; each completion handler is one step of its connection's machine |
| Backend.dfy | the process: all of the server's objects together are in a state the server machine reaches |
| ClientMachine.dfy, GameClient.dfy | the client, as a machine and as a class |
| Network.dfy, Progress.dfy | the closed system: end-to-end safety, termination, quiescence |

A completion handler is one step, because one thread runs the I/O context. A composed read
or write moves any non-zero number of bytes per step, completes when its buffer is done and
may fail at any point. The classes keep the program's fields (`readMsg`, `writeMsgs`,
`participants`, `users`, ...) and update them in place. A connection and a client carry a
ghost `model`, the state of the pure machine, tied to the real fields by `Valid()`. The
class `Backend` holds the objects that `main` wires together and runs their completion
handlers in any order the sockets report. Its `Valid()` ties all connections, the set, the
table and the sessions to one state of `ServerMachine`, reached by the machine's own steps:
each handler takes one step, and a successful accept takes two, because it also makes the
next connection object (`Accept`, then `Knock`). The theorems are about the machines;
`ConnectionRefines` and `TableRefines` carry those of the server over to its objects. The
client's methods are steps of `ClientMachine` in the same way, one object at a time.

Assumptions, all stated as types, parameters or preconditions: a body assigned to a message
has at most 2044 bytes (type `Body`; longer strings overflow the buffer in the source), and
so have rendered responses; a client writes only after it is connected; the table starts
well-formed (an empty one is); `select` returns rows in table order; a request body is
well-formed JSON, so `parse` is a total function; the password hash is any function.

Two findings, each with its exact condition.

The header decoder accepts more than the encoder writes. `AcceptedHeaders` gives the accepted
headers, for every four bytes; `WrittenHeaders` says which of them the encoder writes.
`ForeignHeaders` gives examples: `0005` and `+5x ` are accepted as 5 and never written.

A session outlives its account, and because the largest id is reused after unregistering, the
session stored under an id can be that of another account than the row with that id
(`StaleSessionExists`). `HandleKeepsMatch` says which single request brings this about, by a
guard that can be evaluated before the call: a registration of a free email under an id (the
largest plus one) whose session has another email or nickname. `MatchThroughout` says of whole
runs that it never happens exactly if no request is such a clash, and `StaleExactly` says for
each row of each run whether its id names another account: exactly if it was registered by a
clash and has not been logged in on since.

## Model

| member | source | states |
|---|---|---|
| Framing.HeaderRoundTrip | include/net/message.hpp:63-80 | every legal length survives encode then decode, and its header is four bytes |
| Framing.DecodeHeaderAccepts | include/net/message.hpp:63-73 | a header is accepted exactly when its `atoi` value lies in 0..2044; negative values wrap and are refused |
| Framing.LegalLengths | include/net/message.hpp:9-10 | some four-byte header announces n exactly if n is at most 2044, the room that the header leaves in 2048 bytes |
| Framing.AtoiBound | include/net/message.hpp:65-67 | no four-character header overflows an `int` |
| Framing.AcceptedHeaders | include/net/message.hpp:63-73 | a header announces n exactly if n is at most 2044 and the header is white space, at most one sign, digits that denote n (leading zeros, or no digit for 0) and anything else behind them, with a minus sign only for 0 |
| Framing.WrittenHeaders | include/net/message.hpp:75-80 | an accepted header is one the encoder writes exactly if it is blanks and then digits without a leading zero |
| Framing.SomeHeaders | include/net/message.hpp:75-80 | the bytes written for the lengths 5, 37 and 2044 and for one whole frame |
| Framing.ForeignHeaders | include/net/message.hpp:63-73 | headers that are never written, byte by byte: leading zeros, a sign with junk, tabs and a NUL are accepted, a minus sign before 5 is refused |
| Framing.ParseAppend | src/net/tcp_connection.cpp:41-80 | the meaning of a stream is compositional at frame boundaries |
| Framing.PrefixParses | include/net/message.hpp:63-89 | every prefix of a stream of frames means exactly the bodies whose frames are complete, plus a proper prefix of the next frame |
| Framing.FramesDecode | include/net/message.hpp:63-89 | frames are uniquely decodable |
| ReadLoop.StepKeepsInv | src/net/tcp_connection.cpp:41-80 | bytes consumed are the handed-over messages followed by the filled part of the buffer, at every step |
| ReadLoop.ReadLoopMeaning | src/net/tcp_connection.cpp:41-80 | on every stream, chunking and failure pattern the loop hands over the complete messages of what arrived, all of them once no completion is due, and stops at the first refused header |
| ReadLoop.ReadLoopDecodes | components/client/client.cpp:61-84 | on the frames of a list of bodies, or a prefix of them, it hands over exactly the bodies that are complete, whatever the reused buffer held |
| ReadLoop.ArbitraryStreamSafe | include/net/message.hpp:63-73 | no read ever leaves the 2048-byte buffer; after a refusal or failure the loop takes no step |
| WriteQueue.WriteQueueMeaning | src/net/tcp_connection.cpp:32-39 | popped frames then the queue are the frames delivered; bytes sent are the popped frames and a prefix of the front one; the queue is non-empty exactly when a write is outstanding or has failed |
| WriteQueue.FailedWriterIsSilent | src/net/tcp_connection.cpp:92-97 | after a failed write nothing is sent or popped again; later deliveries only queue up |
| WriteQueue.StepKeepsInv | components/client/client.cpp:86-100 | the same relation between deque, popped frames and sent bytes, at every step |
| Messages.Message.constructor | include/net/message.hpp:12-14 | a new message has length 0 and an arbitrary buffer |
| Messages.Message.FromString | include/net/message.hpp:16-19 | a message built from a string is that string's frame |
| Messages.Message.SetBodyLength | include/net/message.hpp:56-61 | lengths beyond 2044 are clamped to it |
| Messages.Message.DecodeHeader | include/net/message.hpp:63-73 | accepts exactly `atoi` values in 0..2044 and sets that length; otherwise sets 0 and answers false; the buffer is untouched |
| Messages.Message.EncodeHeader | include/net/message.hpp:75-80 | overwrites exactly the four header bytes |
| Messages.Message.Assign | include/net/message.hpp:82-89 | text and frame are those of the string; the bytes behind are left as they were |
| Messages.Message.ToString | include/net/message.hpp:100-103 | stale bytes behind the body do not show |
| Accounts.RegisterRefines | src/net/mes_handler/mes_handler-register.cpp:28-53 | the duplicate scan and insert are insert-if-absent on the email directory |
| Accounts.LoginRefines | src/net/mes_handler/mes_handler-login.cpp:24-55 | the any-row scan is a directory lookup and leaves the table alone |
| Accounts.UnregisterRefines | src/net/mes_handler/mes_handler-unregister.cpp:27-53 | the first-row scan and delete are remove-if-hash-matches |
| Accounts.HandleRefines | src/net/mes_handler/mes_handler.cpp:37-54 | on a well-formed table every request gives the directory's answer and the directory's next state, and the table stays well-formed |
| Accounts.ScansOnAnyTable | src/net/mes_handler/mes_handler-login.cpp:29-55 | what the three scans answer and change on any table, with duplicate emails too: rows, session and response, by the hash of password followed by salt |
| AccountRuns.RunRefines | src/net/mes_handler/mes_handler-register.cpp:33-50 | over every run emails stay distinct, ids increase in insertion order, and the table stands for the directory's run |
| AccountRuns.RepliesRefine | src/net/mes_handler/mes_handler.cpp:45-53 | every answer of a run is the directory's answer at that point |
| AccountRuns.Projection | src/net/mes_handler/mes_handler-register.cpp:28-53 | answers to requests naming an email depend only on that email's initial registration and on those requests |
| AccountRuns.WhileRegistered | src/net/mes_handler/mes_handler-login.cpp:22-55 | from a registration until a successful unregistration: NAME_TAKEN, and login and unregister decided by whether the hashes of password followed by salt agree |
| AccountRuns.WhileUnregistered | src/net/mes_handler/mes_handler-unregister.cpp:33-53 | from an unregistration until the next registration: NAME_UNKNOWN, NO_NAME, and registering succeeds |
| AccountRuns.Conservation | src/net/mes_handler/mes_handler-register.cpp:43-50 | rows are registrations minus unregistrations; every id lies between 1 and the number of registrations |
| AccountRuns.IdsFitBigint | include/db/table_user.hpp:27-33 | ids fit a bigint for that many registrations |
| AccountRuns.SessionsExplained | src/net/mes_handler/mes_handler-login.cpp:43-46 | the ids with a session are those ever logged in on; each session is what the last login on that id stored, and the row it stored is in every later table exactly if its email was not unregistered since |
| AccountRuns.RowStays | src/net/mes_handler/mes_handler-unregister.cpp:35-40 | a row is in every later table of a run exactly if its email is not unregistered again |
| AccountRuns.RowsExactly | src/net/mes_handler/mes_handler-register.cpp:43-50 | a row is in the table after a run exactly if it was there at the start or a successful request registered it, with the largest id plus one and the hash of that request's password followed by the salt, and its email was not unregistered since |
| AccountRuns.HandleKeepsMatch | src/net/mes_handler/mes_handler-register.cpp:43-50 | where every row with a session under its id has its own, one request spoils that exactly if it registers a free email under an id whose session is of another email or nickname |
| AccountRuns.MatchThroughout | src/server.cpp:6-13 | table and sessions agree after every prefix of a run exactly if they agree at the start and no request clashes |
| AccountRuns.StaleExactly | src/net/mes_handler/mes_handler-login.cpp:43-46 | in every run, the session under a row's id is of another account exactly if the row was registered by a clash and not logged in on since |
| AccountRuns.StaleSessionExists | src/server.cpp:6-13 | a four-request run after which an id names one account in the table and another in the sessions |
| ServerMachine.StepKeepsInv | src/net/tcp_connection.cpp:41-100 | every completion handler keeps the server's invariant, for any number of connections |
| ServerMachine.ServerRefinesDirectory | src/net/mes_handler/mes_handler.cpp:37-54 | against arbitrary clients: bodies handled are the complete messages received; frames delivered are the connect response and the sequential directory's answers; bytes sent are a prefix of them |
| ServerMachine.PipelinedReplies | src/net/tcp_connection.cpp:72-73 | the k-th answer on a connection is a response of the matching type to its k-th recognised request |
| ServerMachine.ReplyOfRequest | src/net/mes_handler/mes_handler.cpp:45-53 | and it is exactly the rendered response that the run of all requests before it, from any connection, gives to this one |
| ServerMachine.Lifecycle | src/net/mes_handler/mes_handler.cpp:12-22 | participants are the accepted connections without a failed transfer; a transfer is outstanding only on an accepted connection, one that has its handler; none returns to the set; after a failed write no byte is sent; after a failed read or refused header nothing more is handled |
| GameServer.TcpConnection.Deliver | src/net/tcp_connection.cpp:32-39 | the message joins the queue and a write starts only when none was in progress |
| GameServer.TcpConnection.DoWrite | src/net/tcp_connection.cpp:82-100 | starting a write demands a non-empty queue and no outstanding write |
| GameServer.TcpConnection.OnHeaderRead | src/net/tcp_connection.cpp:44-57 | next read, silent stop on a refused header, or removal from the set |
| GameServer.TcpConnection.OnBodyRead | src/net/tcp_connection.cpp:66-78 | the handler answers the body in the unchanged buffer, then the next read starts |
| GameServer.TcpConnection.OnWritten | src/net/tcp_connection.cpp:86-98 | pops the front and writes the next, or leaves the set |
| GameServer.TcpConnection.Start | src/net/tcp_connection.cpp:16-19 | reading starts only on a connection that has its handler |
| GameServer.MesHandler.AddConnection | src/net/mes_handler/mes_handler.cpp:12-17 | the connection is in the set, has this handler, and its first header read is outstanding |
| GameServer.MesHandler.DelConnection | src/net/mes_handler/mes_handler.cpp:19-22 | removes the connection; harmless if it is not there |
| GameServer.MesHandler.Handle | src/net/mes_handler/mes_handler.cpp:37-54 | new rows, sessions and the one delivery are those of the row-level specification |
| GameServer.MesHandler.HandleRegRequest | src/net/mes_handler/mes_handler-register.cpp:12-56 | if any row has the email: the table stays and NAME_TAKEN is queued; otherwise a row with the largest id plus one and the hash of password followed by salt is appended and OK is queued |
| GameServer.MesHandler.HandleLoginRequest | src/net/mes_handler/mes_handler-login.cpp:12-58 | if any row has the email and the hash of password followed by salt: the user of the first such row is stored with this connection and OK is queued; otherwise nothing is stored and PASS_INCORRECT or NAME_UNKNOWN is queued |
| GameServer.MesHandler.HandleUnregRequest | src/net/mes_handler/mes_handler-unregister.cpp:12-56 | if the first row with the email has the hash of password followed by salt: all rows with the email go and OK is queued; otherwise the table stays and NO_PASS or NO_NAME is queued |
| GameServer.Server.AddUser | src/server.cpp:6-13 | the user replaces an earlier one under the same id |
| GameServer.Server.GetUser | src/server.cpp:14-26 | finds the user under an id, or none |
| GameServer.Server.GetUserBy | src/server.cpp:33-46 | finds a user that satisfies the predicate; none only if no user does |
| GameServer.TcpServer.constructor | src/net/tcp_server.cpp:7-13 | one connection object waits for a client before the handler is made |
| GameServer.TcpServer.HandleAccept | src/net/tcp_server.cpp:26-43 | the new connection has exactly one message queued, the rendered connect response with code 0, is in the set, has its handler and reads its first header; after an error the object is dropped untouched; either way the next accept starts, on a new object |
| GameBackend.Backend.constructor | main.cpp:109-114 | the wired objects are in the machine's state with one connection waiting |
| GameBackend.Backend.OnAccepted | src/net/tcp_server.cpp:32-42 | the connection that waited is in the set, with its handler, the connect response in its queue and a header read outstanding, and a new one waits; this is the machine's `Accept` and the `Knock` of the next object |
| GameBackend.Backend.OnAcceptError | src/net/tcp_server.cpp:38-42 | a failed accept is the machine's `AcceptError`: a new object waits in the place of the dropped one |
| GameBackend.Backend.OnReadDone | src/net/tcp_connection.cpp:41-80 | the completion or failure of any read is one step of the machine for all objects together, table and sessions included |
| GameBackend.Backend.OnWriteDone | src/net/tcp_connection.cpp:82-100 | the same for the completion or failure of any write |
| GameBackend.Backend.Dispatch | main.cpp:115 | each kind of report runs its own handler: the machine takes the steps of that report, and the connection, its queue and the set change as that handler changes them |
| GameBackend.Backend.Run | main.cpp:115 | the reports are served in order and none is left out: each one possible in its turn makes the machine take exactly its steps, and the objects stay in the state reached |
| GameBackend.ConnectionRefines | src/net/tcp_connection.cpp:32-100 | of the objects after any run: bodies handled are complete messages received; queue and bytes sent are the connect response with code 0, which comes first, and the directory's answers in order; set membership is handler set and no failed transfer; no completion can come before the handler is set |
| GameBackend.TableRefines | src/net/mes_handler/mes_handler.cpp:37-54 | of the objects after any run: table and sessions are those of the sequential run of the requests handled, and the table stays well-formed |
| ClientMachine.ClientAlone | components/client/client.cpp:61-84 | against an arbitrary peer: messages read are the complete ones received, in order; refusal or failure closes; a closed socket moves no byte |
| ClientMachine.NotConnected | components/client/client.cpp:52-59 | until a connect has succeeded, in every run: no read or write is started, no byte moves and nothing is written or received |
| GameClient.Client.Write | components/client/client.cpp:37-46 | posts a copy of the message |
| GameClient.Client.RunTask | components/client/client.cpp:38-49 | a posted write joins the queue and starts a write when none is in progress; a posted close closes |
| GameClient.Client.Close | components/client/client.cpp:48-50 | only posts |
| GameClient.Client.OnConnected | components/client/client.cpp:52-59 | a header read starts on success; on an error no operation starts |
| GameClient.Client.OnHeaderRead | components/client/client.cpp:63-69 | next read, or close on an error or a refused header |
| GameClient.Client.OnBodyRead | components/client/client.cpp:75-82 | queues a copy of the buffer before reading on, or closes |
| GameClient.Client.OnWritten | components/client/client.cpp:89-98 | pops the front and writes the next, or closes |
| GameClient.Client.ReadIfAvail | components/client/client.cpp:29-35 | takes the oldest received message |
| GameClient.Client.ReadWait | components/client/client.cpp:11-15 | takes the oldest received message |
| Network.StreamDelivers | components/client/client.cpp:61-100 | one direction: what is handed over is a prefix of what was pushed, and no header is refused |
| Network.EndToEnd | src/net/tcp_server.cpp:26-43 | what a client has received is a prefix of the connect response and the sequential directory's answers to its requests, all clients' requests taken in the order they were handled; what was handled for it is a prefix of what it wrote |
| Network.GreetingFirst | src/net/tcp_server.cpp:28-35 | the first message that any client receives is the rendered connect response with code 0 |
| Network.AnswersReceived | components/client/client.cpp:73-84 | message k + 1 that a client receives is the rendered response of the run of all requests to its k-th recognised request |
| Network.CoreIsARun | src/net/mes_handler/mes_handler.cpp:37-54 | table and sessions of the closed system are those of the run of its log |
| Progress.StepWork | src/net/tcp_connection.cpp:62-100 | every internal step, a failing one too, lowers a measure; a user action raises it by a bounded amount |
| Progress.RunsTerminate | components/client/client.cpp:37-100 | a run has at most a fixed number of internal steps per user action |
| Progress.RunStaysHealthy | components/client/client.cpp:52-100 | a run without failed transfers or connects and without closes leaves every link without a failure |
| Progress.QuietMeansAnswered | components/client/client.cpp:73-100 | after every such run, when nothing is left to do, queues and streams are empty and every recognised request has been answered exactly once |
| Progress.EverythingGetsAnswered | src/net/tcp_connection.cpp:62-100 | every such run can go on, without failures, to a state in which everything written so far is answered |

## Left out

- Bodies over 2044 bytes and the wide-string overload: outside the domain of a message.
- Malformed or incomplete JSON: it throws or asserts outside the modelled state.
- JSON text, SHA-512, PostgreSQL: parameters or plain row sequences; nothing is claimed about collisions, SQL row order or NULL.
- Sockets, resolver and Asio internals: only completion semantics; streams are unbounded FIFOs, so back-pressure is not modelled.
- A user's `write` before the client is connected, which its callers never do.
- The 64-bit width of ids: ids are unbounded numbers, with `IdsFitBigint` saying when that is exact.
- Session removal: the program never removes a session.
- The clients' objects are not tied to one state of the closed system as the server's are; each is proved on its own against its machine.
- The lifetime of a connection object and the closing of its socket when the last reference goes: a failure may happen at any point instead.
- The receive queue's lock-free implementation: a FIFO.
- GameClient.Client.ReadWait: does not model blocking; its precondition is that a message has arrived.
- Logging, tracing, signals, options, configuration files and build scripts.
