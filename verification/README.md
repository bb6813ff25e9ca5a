# Portscope protocol model

Portscope is a terminating proxy: each adapter forwards a protocol's bytes unchanged while it
reconstructs enough of the protocol to pair requests with replies, and a store keeps what was seen.
This project models the parts where that is hard and proves what they promise. `dafny verify
dfyconfig.toml` checks all of it.

Throughout, sockets are byte sequences with a read position, goroutines are state machines whose
steps may interleave in any order, and a loop of the program is a method proved against a recursive
function; the properties are lemmas about those functions. Texts of RESP and SCRAM are bytes written
as `char`.

| part | files |
|---|---|
| Redis: RESP reader and printer, authentication of a listener's client, the request pipeline | `Decimal`, `RespGrammar`, `RespParser`, `RespTheorems`, `RespPrinting`, `RespMeaning`, `RespReader`, `RedisAuth`, `RedisAnswers`, `RedisServer`, `RedisPipeline`, `RedisInvariant`, `RedisConnection`, `RedisOrder` |
| RabbitMQ: observer of methods and content, the relay around it, frames, handshake methods, field tables | `AmqpMethods`, `AmqpInspector`, `AmqpTheorems`, `AmqpAccounting`, `AmqpReplies`, `AmqpOrder`, `AmqpMessages`, `AmqpRelay`, `AmqpWire`, `AmqpTable`, `AmqpCursor` |
| MySQL: packets, responses of any shape, binary rows and parameters | `MysqlPacket`, `MysqlReplies`, `MysqlResponse`, `MysqlAccepts`, `MysqlStream`, `MysqlBinary`, `MysqlRows` |
| HTTP: gRPC message reassembly, WebSocket forwarding | `GrpcStream`, `WebSocket` |
| MongoDB: SCRAM client and server | `ScramText`, `Scram`, `ScramKeys` |
| PostgreSQL: the tracker that pairs requests with replies, and the server it must agree with | `PostgresTracker`, `PostgresErrors` |
| Store and manager | `Journal`, `JournalFile`, `Manager` |
| Shared | `Wrappers`, `Bytes`, `Octet`, `Streams` |

How the main results hang together:

* **RESP.** A derivation tree (`RespGrammar.Node`) records every byte of a frame. The reader accepts a
  frame exactly when the input starts with the encoding of a derivation within the limits
  (`FrameAcceptedIff`); uniqueness, the size and depth bounds, the round trip of printed values and
  the equality of streamed and definite forms follow from that. What each form reads as is stated byte by
  byte in `RespMeaning`.
* **Redis forwarding.** A Redis server is less liberal than the proxy's reader: what does not start with `*` is
  lines of words to it, and lengths have one spelling. It reads a forwarded frame as one command with the arguments that
  were inspected exactly when the frame is an array of bulk strings in that form, as a rewritten HELLO always is
  (`ForwardedIsOneCommandIff`); `BulkIsReadAsLines` is a frame that the proxy takes for one command and the
  server for three.
* **Redis answers.** `RedisAnswers` says, for every request, whether it is answered or forwarded, and with which
  text, without the functions that decide it.
* **Redis pipeline.** One invariant over all interleavings of request reader, upstream reader and main
  loop gives: the client receives its answers in request order, each the local reply or the
  upstream's reply to that very command; a reply never meets an empty queue. The connection object's
  methods take those actions on its fields, and its whole loop, with any choice of the select, keeps
  the invariant (`RedisConnection.Connection.Handle`).
* **AMQP.** The observer with its maps is shown to do what an observer of a single channel does
  (`StepFollows`). Non-interference, conservation of requests, order and the assembly of bodies are then
  proved one channel at a time, and the relay adds the two goroutines and the wire. Which method answers which
  is stated by their numbers (`AmqpReplies`). Requests that expect the same response are recorded in the order sent, except for basic.get: one whose message is still
  arriving is overtaken by a get-empty for a later one, and by any pending one at a shutdown. Requests are told
  apart by the time they were sent, so gets with the same bytes are different requests.
  `RequestsRecordedInOrderIff` is the exact condition; `GetEmptyOvertakes` and `ShutdownOvertakes` are the
  failing runs.
* **MySQL.** Responses are built by a grammar; the mutually recursive reader accepts exactly the
  streams where the packets of a response stand, consumes those and leaves the rest
  (`ResponseAcceptedIff`). The grammar has layouts of its own for OK packets, terminators and counts
  (`MysqlReplies`), and another result follows exactly when bit 3 of the status is set (`PartStopsIff`). A
  terminator of nine bytes or more is not recognised by the program; the exact condition is
  `TerminatorRecognisedIff`, with the smallest case in `LongTerminatorMissed`. What the proxy decodes of rows and parameters is their captured prefix: rows are recovered exactly when captured whole, an
  EXECUTE if moreover no parameter was streamed as nothing, in a packet longer than the capture, or under the
  type of NULL (`ExecuteReadsBackIff`); `EmptyLongDataIsRefused` and `LongParameterIsRefused` are packets the
  program cannot decode. The reader stops behind a reply that opens a cursor only without EOF
  packets (`CursorReplyReadIff`).
* **Incremental parts.** The chunked gRPC loop refines a one-byte machine, so no cut of the stream can
  show. A WebSocket frame is forwarded through partial writes with its capture unmasked at absolute
  offsets.
* **SCRAM.** The salted password, the keys, the proof and the messages are written out as RFC 5802 has them
  (`ScramKeys`). Both ends are in the repository; for every user, password, salt and nonces that pass the
  checks they accept each other. The server accepts exactly when the key it recovers hashes to the stored one
  (`AnswerIff`, which assumes nothing of the hash); that this is the right proof alone (`OnlyTheRightProof`) rests on
  an ideal hash, injective on keys of its own size, which real digests are not known to be. Which
  first messages the server takes is characterised for any text (`AnyFirstAcceptedIff`).
* **Journal.** JSON normalises what it writes, so an item need not read back as itself. In any run without disk failures,
  over any file, ring and journal agree exactly when each item in the ring is what its own line reads back as
  (`AgreesIff`); over a file the program wrote, exactly when all items are their own normal form, and only then
  does a restart answer every query as before: it brings back the normal forms (`RestartAnswersAlikeIff`,
  failing case in `NormalisedItemIsNotFound`). The file's length is known after any number of records
  (`JournalLength`). Reopening succeeds exactly when every line fits the reader's buffer; `LongRecordStopsReopening` is the failing case.
* **PostgreSQL.** Conservation holds for every run, and the i-th record belongs to the i-th Execute in
  every error-free pipeline. With errors and simple queries the tracker is compared with a server that is a
  machine of its own, driven by the same messages: it discards what follows an error up to the next Sync.
  They agree at every ReadyForQuery - each record has its own request's outcome, and exactly the unanswered
  requests are waiting - if and only if (`RightRequestIff`) each batch that fails has one request without an
  answer, the one that failed, and no simple query is waiting at a ReadyForQuery that is not its own.
  Deferred errors are covered. The failing runs are `SkippedExecuteTakesLaterReply`,
  `StaleErrorMarksNextExecute` and `SyncFinishesWaitingQuery`.
* **Manager.** Over every interleaving of Apply, Close, status callbacks and adapter exits an item has
  at most one process that is neither cancelled nor returned; its last word is what is shown, and superseded
  processes stay silent.

## Model

| member | source | states |
|---|---|---|
| Decimal.AtoiItoa | internal/proxy/redisadapter/redis.go:444-451 | a printed length or count is read back as the same number, for every number an int can hold |
| Decimal.AtoiIff | internal/proxy/redisadapter/redis.go:288-292 | a text is read as a number exactly when it is a sign that suits it, any leading zeros and the number in decimal, and the number fits 64 bits |
| RespTheorems.FrameAcceptedIff | internal/proxy/redisadapter/resp.go:28-203 | a frame is accepted exactly when the input starts with the bytes of a derivation within the depth and size limits; those bytes, and no others, are consumed |
| RespTheorems.FrameUnique | internal/proxy/redisadapter/resp.go:28-203 | an input starts with at most one acceptable frame, so where a frame ends is never a choice |
| RespTheorems.FrameBounds | internal/proxy/redisadapter/resp.go:33-203 | nesting of an accepted frame is at most 64; everything but a definite bulk is at most 64 MiB, a definite bulk at most twice that and two bytes |
| RespTheorems.NodeBounds | internal/proxy/redisadapter/resp.go:33-110 | the bounds hold for every nested value, counted from where its frame began |
| RespTheorems.ValueSound | internal/proxy/redisadapter/resp.go:33-110 | whatever the recursive reader accepts is a derivation within the limits standing at exactly the bytes consumed |
| RespTheorems.ValueComplete | internal/proxy/redisadapter/resp.go:33-110 | every derivation within the limits is accepted and returned |
| RespTheorems.ChunksSound | internal/proxy/redisadapter/resp.go:112-147 | an accepted streamed string is a run of non-empty chunks and a final chunk of length zero |
| RespTheorems.StreamSound | internal/proxy/redisadapter/resp.go:149-166 | an accepted streamed aggregate ends at the first end marker, and a streamed map only after whole pairs |
| RespPrinting.PrintThenRead | internal/proxy/redisadapter/resp.go:28-203 | reading the definite-length print of any value gives that value and leaves what follows unread, whenever the print is within the reader's limits |
| RespPrinting.StreamedReadsAsDefinite | internal/proxy/redisadapter/resp.go:112-166 | whatever form a value had on the wire, streamed or not, its definite form reads as the same value, if that form is within the limits |
| RespPrinting.ChunkingInvisible | internal/proxy/redisadapter/resp.go:112-147 | a bulk string cut into any chunks, and the same string of up to 64 MiB uncut, read as the same value |
| RespPrinting.MeaningOfDefinite | internal/proxy/redisadapter/resp.go:33-110 | the printed form of a value denotes that value |
| RespMeaning.LineReads | internal/proxy/redisadapter/resp.go:44-50 | a line of each of the seven one-line kinds reads as its text |
| RespMeaning.BulkReads | internal/proxy/redisadapter/resp.go:51-87 | a bulk of each kind reads as exactly the bytes its length announces |
| RespMeaning.NullReads | internal/proxy/redisadapter/resp.go:51-110 | a negative length or count, however spelled, reads as the text "null", without elements, for every kind that has one |
| RespMeaning.CountedReads | internal/proxy/redisadapter/resp.go:88-180 | a counted aggregate has one element for each frame, in order, each what that frame reads as alone |
| RespMeaning.StreamedReads | internal/proxy/redisadapter/resp.go:149-166 | a streamed aggregate has one element for each frame before its end marker, in order, each what that frame reads as alone |
| RespMeaning.StreamedReadsAsCounted | internal/proxy/redisadapter/resp.go:149-180 | the same frames, streamed or counted, read as the same value, and that value holds them |
| RespMeaning.ChunksRead | internal/proxy/redisadapter/resp.go:112-147 | a streamed string reads as its chunks put together, for any non-empty chunks |
| RespReader.Reader.ReadSlice | internal/proxy/redisadapter/resp.go:182-203 | a buffered read gives bytes up to and including the next newline, or a full buffer, or all that is left, and consumes exactly those |
| RespReader.ReadFrame | internal/proxy/redisadapter/resp.go:28-31 | the raw copy that is forwarded is exactly the bytes consumed, and the value is the meaning of the unique derivation |
| RespReader.ReadOne | internal/proxy/redisadapter/resp.go:33-110 | the reader that grows the raw buffer in place accepts, refuses and consumes as the recursive grammar says |
| RespReader.ReadTextLine | internal/proxy/redisadapter/resp.go:182-203 | a line longer than the read buffer is assembled from its fragments, is bounded with all raw bytes before it, and must end with CRLF |
| RespReader.ReadStreamedString | internal/proxy/redisadapter/resp.go:112-147 | the loop over chunks yields their concatenation and stops at the chunk of length zero |
| RespReader.ReadStreamedItems | internal/proxy/redisadapter/resp.go:149-166 | the loop over streamed elements yields the elements before the end marker, with the limit checked after each |
| RespReader.ReadCounted | internal/proxy/redisadapter/resp.go:168-180 | exactly the announced number of elements is read |
| RedisAuth.InspectHello | internal/proxy/redisadapter/redis.go:325-354 | the loop over HELLO's clauses verifies AUTH, keeps SETNAME, and refuses anything cut short or unknown, as the clause grammar says |
| RedisAuth.RewrittenHelloIsClean | internal/proxy/redisadapter/redis.go:325-354 | the rewritten HELLO parses again: the same version, the original's SETNAME clauses in order, and no credentials |
| RedisAuth.EncodeCommand | internal/proxy/redisadapter/redis.go:444-451 | the bytes written are the definite-length print of the array of arguments |
| RedisAuth.EncodedCommandReadsBack | internal/proxy/redisadapter/redis.go:444-451 | an encoded command reads back as exactly its arguments and leaves what follows unread |
| RedisAuth.InspectRequest | internal/proxy/redisadapter/redis.go:241-302 | the branches over AUTH, HELLO, SELECT, RESET and the rest decide as the case list of the function says, with the error texts |
| RedisAuth.DecisionFacts | internal/proxy/redisadapter/redis.go:241-302 | each request has exactly one answer, local or forwarded; nothing is forwarded unauthenticated; authentication comes only from the listener's credentials and is never lost |
| RedisAuth.SessionCommandsStayLocal | internal/proxy/redisadapter/redis.go:241-302 | whatever is forwarded, read back by the proxy's own reader, is one command that is not AUTH, SELECT or RESET, and if it is a HELLO it has no AUTH clause; what a server reads is RedisServer's subject |
| RedisAuth.ForwardedHelloHasNoCredentials | internal/proxy/redisadapter/redis.go:262-278 | a forwarded HELLO, read as the upstream reads it, is a HELLO without an AUTH clause |
| RedisAuth.NothingForwardedBeforeCredentials | internal/proxy/redisadapter/redis.go:91-302 | with a listener password, over any sequence of requests, a forwarded request comes after one that showed the credentials |
| RedisAnswers.FieldsIff | internal/proxy/redisadapter/redis.go:360-369 | the words of a request that is no array are exactly the runs without white space between its white space |
| RedisAnswers.ArgumentsOf | internal/proxy/redisadapter/redis.go:360-369 | the arguments are the texts of the elements or, without elements, those words; the operation shown is the first of them in capitals, or UNKNOWN |
| RedisAnswers.AuthAnswered | internal/proxy/redisadapter/redis.go:249-261 | AUTH, in any case, is told +OK exactly for the listener's user and password, or its password alone when the user is default; other pairs get WRONGPASS, anything else an -ERR; nothing is forwarded |
| RedisAnswers.SelectAnswered | internal/proxy/redisadapter/redis.go:284-296 | an authenticated SELECT is told +OK exactly when its one argument spells the pinned database, and gets an -ERR otherwise |
| RedisAnswers.ResetAnswered | internal/proxy/redisadapter/redis.go:297-300 | an authenticated RESET gets an -ERR and is not forwarded |
| RedisAnswers.Unauthenticated | internal/proxy/redisadapter/redis.go:280-283 | before authentication every command but AUTH and HELLO is told NOAUTH |
| RedisAnswers.OthersForwarded | internal/proxy/redisadapter/redis.go:301-302 | after it every command but those four is forwarded as exactly its own bytes |
| RedisAnswers.HelloAnswered | internal/proxy/redisadapter/redis.go:262-279 | an ill-formed HELLO gets an -ERR, wrong credentials WRONGPASS, missing ones before authentication NOAUTH; in every other case, and only then, it goes upstream |
| RedisAnswers.HelloForwarded | internal/proxy/redisadapter/redis.go:262-279 | what goes upstream of a HELLO is, byte for byte, an array of its own words but for its credentials |
| RedisAnswers.ClausesIff | internal/proxy/redisadapter/redis.go:325-354 | the clauses of a HELLO are taken exactly when the words are those clauses written out, with at most one AUTH |
| RedisAnswers.HelloRedacted | internal/proxy/redisadapter/redis.go:245-247 | the text of a HELLO is hidden exactly when one of its words is AUTH, in any case |
| RedisAnswers.AuthAfterIff | internal/proxy/redisadapter/redis.go:241-354 | over any conversation a client is authenticated exactly if there is no password or one of its requests was an AUTH or a well-formed HELLO with the listener's credentials |
| RedisServer.ForwardedIsOneCommandIff | internal/proxy/redisadapter/redis.go:241-302 | a Redis server reads forwarded bytes as one command with the inspected arguments exactly when they are an array of bulk strings with plainly spelled lengths, as a rewritten HELLO is; that command is none of AUTH, SELECT and RESET, and a HELLO has no credentials |
| RedisServer.OneCommandIff | internal/proxy/redisadapter/redis.go:300-301 | for any frame of the proxy's reader: the server's reader finds the same arguments and the same end exactly when the frame is in the server's form |
| RedisServer.BulkIsReadAsLines | internal/proxy/redisadapter/redis.go:300-301 | a bulk string with a line break, forwarded as the command X, is three commands to the server, one of them a SELECT |
| RedisOrder.InspectionIsProper | internal/proxy/redisadapter/redis.go:91-169 | inspecting any client's requests gives what the pipeline needs: one answer each, and no forwarding before authentication |
| RedisInvariant.StepKeeps | internal/proxy/redisadapter/redis.go:118-239 | every action of request reader, upstream reader and main loop keeps the placement of requests, the accepted handshake, what the upstream was sent and the replies in flight |
| RedisInvariant.RunKeeps | internal/proxy/redisadapter/redis.go:118-239 | every reachable state of every interleaving satisfies that invariant |
| RedisInvariant.ResponseMeetsItsRequest | internal/proxy/redisadapter/redis.go:204-229 | when a reply is taken the queue is not empty and its head is the very command the upstream replied to |
| RedisOrder.AnswersInRequestOrder | internal/proxy/redisadapter/redis.go:118-239 | in every interleaving the non-push frames written to the client are the answers to its first requests, in order, and the queue never exceeds 1024 |
| RedisOrder.ClientSeesAnswersInOrder | internal/proxy/redisadapter/redis.go:118-302 | for the requests of any client of any listener, the i-th non-push frame is request i's local reply or the upstream's reply to request i's command |
| RedisOrder.QuietMeansAllAnswered | internal/proxy/redisadapter/redis.go:118-239 | a connection in which nothing can move, with no reply owed by the upstream, has answered every request: the ordering never deadlocks |
| RedisOrder.DialledWhenAuthenticated | internal/proxy/redisadapter/redis.go:78-169 | in every interleaving, for any client: the pipeline runs and commands reach the upstream only after a request that showed the credentials, if there is a password, and the client is kept waiting no longer than that |
| RedisConnection.Connection.AuthenticateOne | internal/proxy/redisadapter/redis.go:91-109 | a request before the upstream is dialled is answered locally and recorded, as the authentication action says |
| RedisConnection.Connection.ReaderStep | internal/proxy/redisadapter/redis.go:126-169 | the request reader's four actions change the shared state as the protocol's steps do |
| RedisConnection.Connection.CarryResponse | internal/proxy/redisadapter/redis.go:171-184 | the upstream reader moves one frame one hop, in order |
| RedisConnection.Connection.FlushLocals | internal/proxy/redisadapter/redis.go:188-195 | the flush loop answers exactly the local replies at the head of the queue and stops at the first forwarded command |
| RedisConnection.Connection.AcceptCommand | internal/proxy/redisadapter/redis.go:196-203 | a command is in the queue before its reader may write it upstream |
| RedisConnection.Connection.ForwardResponse | internal/proxy/redisadapter/redis.go:204-229 | a push leaves the queue alone, any other reply takes its head |
| RedisConnection.FlushedKeeps | internal/proxy/redisadapter/redis.go:188-195 | the whole flush loop keeps the protocol's invariant |
| RedisConnection.Connection.Select | internal/proxy/redisadapter/redis.go:196-237 | whichever ready case the select takes, the object's new state satisfies the invariant |
| RedisConnection.Connection.OtherActs | internal/proxy/redisadapter/redis.go:126-184 | an action of either reader or of the upstream keeps the invariant and touches neither queue, output nor records |
| RedisConnection.Connection.Handle | internal/proxy/redisadapter/redis.go:78-239 | over the whole connection, for any number of turns and any choices of the goroutines in each, the invariant holds and the client has been sent its answers in request order, each recorded |
| AmqpInspector.Inspector.PrepareRequest | internal/proxy/rabbitadapter/inspect.go:78-91 | exactly the synchronous methods that will be answered are queued, at the end of their channel's queue |
| AmqpInspector.Inspector.TakePending | internal/proxy/rabbitadapter/inspect.go:172-181 | the oldest request that the response answers leaves its queue, the others keep their order |
| AmqpInspector.Inspector.ObserveFrame | internal/proxy/rabbitadapter/inspect.go:93-170 | maps and records change as the function on values says, for every kind of frame |
| AmqpInspector.Inspector.MethodFrame | internal/proxy/rabbitadapter/inspect.go:101-128 | a method ends an unfinished message, opens content, answers a request, or stands alone |
| AmqpInspector.Inspector.HeaderFrame | internal/proxy/rabbitadapter/inspect.go:129-146 | a content header gives the open message its size, or closes it when the body is empty or the header bad |
| AmqpInspector.Inspector.BodyFrame | internal/proxy/rabbitadapter/inspect.go:147-166 | a body frame extends the bounded capture and ends the message at its announced size |
| AmqpInspector.Inspector.FailRequests | internal/proxy/rabbitadapter/inspect.go:257-263 | every pending request of every channel is recorded as failed, each channel's in order, whatever the map order |
| AmqpInspector.Inspector.FailPending | internal/proxy/rabbitadapter/inspect.go:257-270 | after a shutdown nothing is pending or open, and each channel's records have grown by its failures and its cut-off messages |
| AmqpTheorems.StepFollows | internal/proxy/rabbitadapter/inspect.go:78-170 | the observer with maps over all channels does to a channel exactly what an observer of one queue and one message does |
| AmqpTheorems.ChannelsDoNotInterfere | internal/proxy/rabbitadapter/inspect.go:78-170 | from states that agree on a channel, dropping all frames of other channels leaves that channel's queue, messages and records the same |
| AmqpTheorems.RecordsOfChannelAlone | internal/proxy/rabbitadapter/inspect.go:78-170 | for every run, the records of channel c are those of an observer that saw only c's frames |
| AmqpTheorems.RunKeepsSound | internal/proxy/rabbitadapter/inspect.go:78-170 | in every reachable state requests and messages are filed under their own channel, and only a basic.get is held by content |
| AmqpAccounting.RequestsConserved | internal/proxy/rabbitadapter/inspect.go:78-181 | in every reachable state a request is recorded, held by content or pending exactly as often as it was enqueued |
| AmqpAccounting.EveryRequestRecordedOnce | internal/proxy/rabbitadapter/inspect.go:257-270 | over every run that ends in the shutdown, each synchronous request is recorded exactly as often as it was sent: as an RPC, inside content, or as a failure |
| AmqpAccounting.TakeIsOldest | internal/proxy/rabbitadapter/inspect.go:172-181 | taking a match takes the first of all requests that expect the same response and leaves their order |
| AmqpOrder.RequestsKeepOrderIff | internal/proxy/rabbitadapter/inspect.go:78-181 | over every run of distinct requests, same bytes allowed, those that expect one response - recorded, held by content, pending - are in the order they were sent exactly when no pending one was recorded while one was held |
| AmqpOrder.RequestsRecordedInOrderIff | internal/proxy/rabbitadapter/inspect.go:78-270 | over every run with its shutdown, requests that expect one response are recorded in the order sent exactly when none was overtaken and none was held at the shutdown while another was pending |
| AmqpOrder.TimesTellApart | internal/proxy/rabbitadapter/inspect.go:86-102 | requests seen at different times are distinct, whatever their bytes |
| AmqpOrder.OtherRequestsKeepOrder | internal/proxy/rabbitadapter/inspect.go:101-181 | for every response but that of basic.get neither can happen, so the order holds without condition |
| AmqpOrder.GetEmptyOvertakes | internal/proxy/rabbitadapter/inspect.go:101-128 | two gets, perhaps of the same bytes, the reply to the first still arriving, and a get-empty for the second: the second is recorded while the first is held |
| AmqpOrder.ShutdownOvertakes | internal/proxy/rabbitadapter/inspect.go:257-270 | two gets, perhaps of the same bytes, the reply to the first still arriving, and the connection drops: the second is recorded before the first |
| AmqpAccounting.RepliesMatchRequests | internal/proxy/rabbitadapter/inspect.go:101-128 | every recorded RPC and every held basic.get pairs a request with a response it expects |
| AmqpReplies.RequestsIff | internal/proxy/rabbitadapter/inspect.go:417-428 | a method expects a reply exactly when its class and number are among those listed |
| AmqpReplies.RepliesIff | internal/proxy/rabbitadapter/inspect.go:172-181 | the reply to a request has its class and the number behind its own, save 51 for exchange.unbind, and 71 or 72 (and 0, which the standard lacks) for basic.get |
| AmqpReplies.RecordsPairByNumber | internal/proxy/rabbitadapter/inspect.go:78-181 | in every reachable state a recorded reply has the number of a reply to the request it is recorded with, and only a basic.get waits for a message |
| AmqpReplies.QueuesHoldRequests | internal/proxy/rabbitadapter/inspect.go:78-91 | after any run every queued event is a request by its numbers, waiting for its own reply |
| AmqpReplies.RequestThenReply | internal/proxy/rabbitadapter/inspect.go:78-128 | after any run: a request on a channel where nobody waits for its reply, then that reply, and the record pairs exactly these two frames, the queue being as before |
| AmqpReplies.ReplyIsPaired | internal/proxy/rabbitadapter/inspect.go:101-181 | a reply is recorded with the oldest request on its channel that waits for its number, whatever else is queued |
| AmqpReplies.GetIsHeld | internal/proxy/rabbitadapter/inspect.go:101-128 | a get-ok takes the oldest basic.get with it into the message it starts |
| AmqpReplies.StandsAlone | internal/proxy/rabbitadapter/inspect.go:117-128 | a method without content that is no request of the client, or that nobody waits for, is recorded by itself and changes nothing else |
| AmqpReplies.NoWaitIff | internal/proxy/rabbitadapter/inspect.go:430-600 | for every method that has it, and any names before it, the no-wait bit is the one the standard puts there |
| AmqpReplies.OthersHaveNoBit | internal/proxy/rabbitadapter/inspect.go:375-600 | every other method counts as without it, whatever its arguments |
| AmqpReplies.SizeIsRead | internal/proxy/rabbitadapter/inspect.go:305-373 | the body size of a content header built with any of the fourteen properties is read back |
| AmqpMessages.BodiesAssemble | internal/proxy/rabbitadapter/inspect.go:147-166 | body frames of one direction and channel, whatever arrives between them, record nothing until the announced size and then one message, grown by exactly their bytes |
| AmqpMessages.MessageSurvivesAnySplit | internal/proxy/rabbitadapter/inspect.go:93-170 | a method, its header and a body in any split into non-empty frames, with any input of the other direction or of other channels in between, give one record of the message, with the first 256 KiB captured and truncation flagged exactly when there was more |
| AmqpRelay.ReplyFindsItsRequest | internal/proxy/rabbitadapter/adapter.go:101-125 | because a request is queued before it is written, a reply the broker sends to it always finds a request of its channel that it answers by its number, in every interleaving of the two relays |
| AmqpRelay.ConnectionAccountsForEveryRequest | internal/proxy/rabbitadapter/adapter.go:73-125 | over every run of both relays and the final shutdown, each request sent on a channel is recorded exactly once |
| AmqpWire.ReadFrame | internal/proxy/rabbitadapter/wire.go:32-58 | the reader takes exactly one frame, or fails with the first error the layout gives, at or below the negotiated limit |
| AmqpWire.MakeFrameBuffer | internal/proxy/rabbitadapter/wire.go:60-68 | the buffer filled in place is the standard's layout of type, channel, size, payload and end octet |
| AmqpWire.FrameIff | internal/proxy/rabbitadapter/wire.go:32-68 | a frame is read exactly when the bytes of its making stand in the stream and it is within the limit and no bad heartbeat; so reading inverts making and keeps the raw bytes |
| AmqpWire.FrameInFull | internal/proxy/rabbitadapter/wire.go:32-68 | the bytes of a frame one by one, and the limits of the frames that are read |
| AmqpWire.StartIff | internal/proxy/rabbitadapter/handshake.go:188-229 | connection.start parses to exactly the fields whose building gives that payload |
| AmqpWire.StartOKIff | internal/proxy/rabbitadapter/handshake.go:231-269 | connection.start-ok parses to exactly the fields whose building gives that payload |
| AmqpWire.OpenReadsBack | internal/proxy/rabbitadapter/handshake.go:292-321 | connection.open built for a virtual host of at most 255 bytes parses as that host |
| AmqpWire.CountedIff | internal/proxy/rabbitadapter/wire.go:135-150 | a length-prefixed string is read exactly where it was written |
| AmqpWire.RawTableIff | internal/proxy/rabbitadapter/wire.go:152-162 | a table taken unread is exactly a table with its right length |
| AmqpTable.FieldDecodes | internal/proxy/rabbitadapter/wire.go:220-302 | a field as the standard writes it, of any kind and nesting, decodes to its meaning and its own end, or is refused exactly when a limit is exceeded |
| AmqpTable.EntriesDecode | internal/proxy/rabbitadapter/wire.go:191-218 | entries decode in order, a later entry replacing an earlier one of the same name, and are refused exactly when too many or too deep |
| AmqpTable.ItemsDecode | internal/proxy/rabbitadapter/wire.go:280-298 | a well-formed array decodes to its items in order |
| AmqpTable.TableDecodes | internal/proxy/rabbitadapter/wire.go:182-218 | a whole well-formed table decodes to its meaning, or is refused for its size alone |
| AmqpTable.DistinctFit | internal/proxy/rabbitadapter/wire.go:191-218 | with distinct names the limits are: at most 1000 entries a table and nesting at most 16 |
| AmqpTable.IntegerReads | internal/proxy/rabbitadapter/wire.go:228-247 | signed and unsigned numbers of 1 to 8 bytes read back over their whole range |
| AmqpCursor.FieldCursor.ReadFieldValue | internal/proxy/rabbitadapter/wire.go:220-302 | the cursor stays inside the data for any bytes, and the recursive reads give what the decoder function gives |
| AmqpCursor.FieldCursor.ReadEntries | internal/proxy/rabbitadapter/wire.go:191-218 | the loop over entries fills the map as the recursion does, for any bytes |
| AmqpCursor.FieldCursor.ReadItems | internal/proxy/rabbitadapter/wire.go:280-298 | the loop over array items follows the recursion, for any bytes |
| AmqpCursor.FieldCursor.ReadScalar | internal/proxy/rabbitadapter/wire.go:224-273 | each scalar kind reads its own width and moves the cursor by it |
| AmqpCursor.Decode | internal/proxy/rabbitadapter/wire.go:182-189 | the decoder in place computes the table function on every input |
| AmqpCursor.ReadStart | internal/proxy/rabbitadapter/handshake.go:188-215 | the cursor form of the parser agrees with the parse function that StartIff is about |
| AmqpCursor.ReadStartOK | internal/proxy/rabbitadapter/handshake.go:231-254 | the cursor form of the parser agrees with the parse function that StartOKIff is about |
| AmqpCursor.ReadOpen | internal/proxy/rabbitadapter/handshake.go:292-309 | the cursor form of the parser agrees with the parse function that OpenReadsBack is about |
| MysqlPacket.PacketIff | internal/proxy/mysqladapter/packet.go:29-54 | a physical packet is read exactly where its header and payload stand |
| MysqlPacket.PacketInFull | internal/proxy/mysqladapter/packet.go:42-54 | a packet is its length in three bytes, least significant first, its sequence number and its payload |
| MysqlPacket.LogicalIff | internal/proxy/mysqladapter/packet.go:56-85 | a logical packet is read exactly where the physical packets of its payload stand, sequence numbers wrapping at 256 and exact multiples of 2^24-1 closed by an empty packet |
| MysqlPacket.ReadLogical | internal/proxy/mysqladapter/packet.go:56-85 | the loop forwards the bytes it consumes and reports size, 256 KiB prefix, truncation and next sequence |
| MysqlPacket.WriteLogical | internal/proxy/mysqladapter/packet.go:87-99 | the loop writes the physical packets of the payload and returns the next sequence |
| MysqlPacket.WrittenReadsBack | internal/proxy/mysqladapter/packet.go:56-99 | what was written reads back with its size, its bounded prefix, truncation exactly when longer, and the next sequence modulo 256 |
| MysqlPacket.ReadClientCommand | internal/proxy/mysqladapter/mysql.go:220-263 | a command read from the client is the logical packet from sequence 0; it is forwarded byte for byte, or, if its first byte is 0x11, 0x12 or 0x15, not at all |
| MysqlPacket.LenencReadsBack | internal/proxy/mysqladapter/packet.go:123-158 | every length-encoded integer reads back and the offset ends right behind it |
| MysqlPacket.LenencIff | internal/proxy/mysqladapter/packet.go:123-158 | an integer is read exactly where one of its forms stands, of one, three, four or nine bytes, or the marker for NULL |
| MysqlPacket.LenencBytesReadsBack | internal/proxy/mysqladapter/packet.go:160-171 | every length-encoded string, NULL included, reads back |
| MysqlReplies.ParseOkIff | internal/proxy/mysqladapter/result.go:441-468 | an OK packet reports a status exactly when it is a header, two length-encoded integers and a tail that starts with that status, where the capabilities have one |
| MysqlReplies.TerminatorIff | internal/proxy/mysqladapter/result.go:470-486 | the status of what ends the rows is that of an EOF packet, or of an OK packet under an EOF header, or zero if none is there |
| MysqlReplies.ColumnCountIff | internal/proxy/mysqladapter/result.go:251-256 | a column count is taken exactly when one of its forms stands in front and it is at most 2^20 |
| MysqlResponse.ResponseReadExactly | internal/proxy/mysqladapter/result.go:202-351 | for any response of OK, ERR and result sets with their rows, in either EOF mode, with any chain of more results and terminators under 9 bytes, exactly its packets are consumed and rows and columns are summed over all results |
| MysqlAccepts.ResponseAcceptedIff | internal/proxy/mysqladapter/result.go:202-351 | for any bytes the reader accepts exactly when the packets of some chain of results stand next; position, sequence, sizes and counts are those of that chain |
| MysqlAccepts.PartStopsIff | internal/proxy/mysqladapter/result.go:224-328 | behind one result the reader stops, with exactly what that result reports, if bit 3 of its status is clear; otherwise it reads on |
| MysqlAccepts.OkStopsIff | internal/proxy/mysqladapter/result.go:232-241 | the same for an OK packet built from affected rows, last id, status, warnings and text |
| MysqlAccepts.ResultsetStopsIff | internal/proxy/mysqladapter/result.go:251-328 | the same for a result set whose rows end in an EOF packet built from warnings and status |
| MysqlAccepts.PrepareAcceptedIff | internal/proxy/mysqladapter/result.go:353-401 | for any bytes, the reply to a PREPARE is accepted exactly when its packets, or an error, stand next |
| MysqlAccepts.ListAcceptedIff | internal/proxy/mysqladapter/result.go:403-439 | for any bytes, a field list or fetch is accepted exactly when rows and their terminator, or an error, stand next |
| MysqlAccepts.StatisticsReadExactly | internal/proxy/mysqladapter/result.go:245-247 | the text that answers STATISTICS is one packet, and nothing behind it is read |
| MysqlAccepts.GeneralStands | internal/proxy/mysqladapter/result.go:224-351 | whatever the mutually recursive reader took after a first packet is the rest of a response that starts with it |
| MysqlAccepts.CursorReplyReadIff | internal/proxy/mysqladapter/result.go:251-309 | the reader stops behind the reply that opens a cursor exactly when the connection has no EOF packets; with them it reads on, and fails if nothing follows |
| MysqlResponse.PrepareReadExactly | internal/proxy/mysqladapter/result.go:353-401 | a prepare reply is read to the end of the definitions and terminators it announces, and its statement, columns and parameters are those of its bytes |
| MysqlResponse.ListReadExactly | internal/proxy/mysqladapter/result.go:403-439 | field lists and fetches are read to their terminator or error, and their rows counted |
| MysqlResponse.GeneralAhead | internal/proxy/mysqladapter/result.go:224-351 | the mutually recursive reader, met with the rest of a response, consumes that rest and no more |
| MysqlResponse.AfterAllCounts | internal/proxy/mysqladapter/result.go:191-200 | the sizes and the position after reading are those of the response's own packets |
| MysqlResponse.TotalFacts | internal/proxy/mysqladapter/result.go:330-351 | rows and columns of a chain of results are the sums over its parts |
| MysqlResponse.TerminatorRecognisedIff | internal/proxy/mysqladapter/result.go:251-328 | after any rows, a packet that starts like a terminator ends the result set exactly when it has fewer than nine bytes; otherwise it is counted as a row |
| MysqlResponse.LongTerminatorMissed | internal/proxy/mysqladapter/result.go:484-486 | the smallest OK terminator with trailing text that the length test does not recognise |
| MysqlStream.ResponseStream.Next | internal/proxy/mysqladapter/result.go:191-200 | one logical packet is read and forwarded, with the sequence, size and truncation of the stream updated |
| MysqlStream.ResponseStream.CountRows | internal/proxy/mysqladapter/result.go:282-309 | the row loop stops at the first terminator or error, having forwarded every packet |
| MysqlStream.ResponseStream.GeneralResponse | internal/proxy/mysqladapter/result.go:224-249 | the stream object follows the response function, forwarding what it consumes |
| MysqlStream.ResponseStream.Resultset | internal/proxy/mysqladapter/result.go:251-328 | column definitions, their optional terminator and the rows are read as the result-set function says |
| MysqlStream.ResponseStream.MoreResults | internal/proxy/mysqladapter/result.go:330-351 | further results are read while the status announces them |
| MysqlStream.ResponseStream.PrepareResponse | internal/proxy/mysqladapter/result.go:353-401 | parameter and column definitions are skipped as announced, with their terminators |
| MysqlStream.ResponseStream.CommandResponse | internal/proxy/mysqladapter/result.go:202-222 | for every command the reader that updates its fields in place agrees with the function and forwards exactly what it consumes |
| MysqlBinary.ValueReadsBack | internal/proxy/mysqladapter/binary.go:161-230 | every value of every supported type, decoded where it was encoded, is that value with the offset right behind it |
| MysqlBinary.KindsIff | internal/proxy/mysqladapter/binary.go:161-206 | which type numbers are read in which form, and which are refused |
| MysqlBinary.IntegerReadsBack | internal/proxy/mysqladapter/binary.go:232-256 | signed and unsigned integers of each width read back over their whole range |
| MysqlBinary.TemporalReadsBack | internal/proxy/mysqladapter/binary.go:258-318 | dates and times in each of their short forms read back |
| MysqlRows.BitmapReadsBack | internal/proxy/mysqladapter/binary.go:80-159 | bit i plus the offset of a null bitmap is mark i, for both offsets in use |
| MysqlRows.RowReadsBack | internal/proxy/mysqladapter/binary.go:132-159 | a binary row of any columns and any pattern of NULLs decodes to its cells |
| MysqlRows.CapturedRowReadsBackIff | internal/proxy/mysqladapter/result.go:283-309 | of a binary row the captured prefix is decoded: its cells are recovered exactly when it is at most 256 KiB |
| MysqlRows.TextRowReadsBack | internal/proxy/mysqladapter/result.go:488-506 | a text row of any values and NULLs decodes to them |
| MysqlRows.CapturedTextRowReadsBackIff | internal/proxy/mysqladapter/result.go:283-309 | of a text row, too, the values are recovered exactly when it is at most 256 KiB |
| MysqlRows.RowsAreNoTerminators | internal/proxy/mysqladapter/result.go:283-328 | no row with a column can be taken for a terminator or an error, in text or binary form |
| MysqlRows.ExecuteReadsBackIff | internal/proxy/mysqladapter/result.go:75-116 | the captured part of an EXECUTE whose types come along or are the retained ones decodes to its parameters, long data included, exactly when the packet is at most 256 KiB and none was streamed as nothing, in a packet longer than the capture, or under the type of NULL; the types are kept in any case |
| MysqlRows.LongParameterIsRefused | internal/proxy/mysqladapter/result.go:105-111 | a string longer than the capture, sent in the packet itself, is not recovered |
| MysqlRows.EmptyLongDataIsRefused | internal/proxy/mysqladapter/binary.go:80-130 | a string parameter streamed as no bytes at all: the program looks for it in the packet and fails |
| MysqlRows.SessionReadsBackIff | internal/proxy/mysqladapter/binary.go:80-130 | over any sequence of EXECUTEs that send types only with new bindings, exactly the executions that meet that condition are recovered, and one that does not leaves the later ones unharmed |
| MysqlRows.DecodeBinaryRow | internal/proxy/mysqladapter/binary.go:132-159 | the loop over columns computes the row function |
| MysqlRows.BindTypes | internal/proxy/mysqladapter/binary.go:97-106 | the loop over type pairs reads type and signedness of each parameter |
| MysqlRows.PreparedStatement.Execute | internal/proxy/mysqladapter/binary.go:80-130 | the statement keeps newly bound types, reuses retained ones, and forgets its long data |
| MysqlRows.PreparedStatement.SendLongData | internal/proxy/mysqladapter/result.go:115-121 | the captured size of a packet of long data is added to its parameter |
| MysqlRows.ChunksAddUp | internal/proxy/mysqladapter/result.go:115-121 | after all chunks of a parameter its size is the sum of their captured sizes, and no other parameter has changed |
| GrpcStream.SplitInvisible | internal/proxy/httpadapter/grpc.go:177-217 | feeding two chunks reaches the same state as feeding their concatenation, for every cut |
| GrpcStream.FeedKeepsLimits | internal/proxy/httpadapter/grpc.go:177-238 | whatever is fed, the capture stays within 256 KiB, snapshots within 100, observations within 1000, errors within 10, and the phase is consistent |
| GrpcStream.MessageStream.FeedChunk | internal/proxy/httpadapter/grpc.go:177-217 | the loop that takes whole runs of header and body does what the one-byte machine does |
| GrpcStream.MessageStream.TakeHeader | internal/proxy/httpadapter/grpc.go:181-208 | header bytes copied into the fixed buffer, up to five, open a message exactly at the fifth |
| GrpcStream.MessageStream.TakeBody | internal/proxy/httpadapter/grpc.go:209-215 | a run of body bytes is captured up to the limit and ends the message at its length |
| GrpcStream.MessageStream.CompleteMessage | internal/proxy/httpadapter/grpc.go:219-238 | a message is counted, kept while there is room, recorded while there is room, and forgotten |
| GrpcStream.MessageStream.FinishStream | internal/proxy/httpadapter/grpc.go:349-365 | an unfinished message or header at the end of the stream is reported |
| GrpcStream.FeedMessages | internal/proxy/httpadapter/grpc.go:177-238 | the envelopes of any messages leave the stream idle, each message received once, in order |
| GrpcStream.MessagesKept | internal/proxy/httpadapter/grpc.go:219-238 | after any messages all are counted, the first 100 kept, the first 1000 recorded with their position, and truncation is flagged exactly when a message or the list was cut |
| GrpcStream.DecodeIsExact | internal/proxy/httpadapter/grpc.go:177-217 | any bytes are some whole messages and part of one, nothing lost or read twice |
| GrpcStream.BytesAccountedFor | internal/proxy/httpadapter/grpc.go:177-238 | after any bytes, those fed are 5 plus the length of each completed message plus the part in progress |
| GrpcStream.FinishReports | internal/proxy/httpadapter/grpc.go:349-365 | for any bytes, exactly an unfinished message or header is reported at the end, with what is missing of it |
| GrpcStream.ErrorsReported | internal/proxy/httpadapter/grpc.go:177-365 | for any bytes and the end of the stream the errors are the first ten of: every unknown flag in order, and the unfinished message or header with what is missing |
| WebSocket.ForwardFrame | internal/proxy/httpadapter/websocket.go:169-240 | a forwarded frame is the frame that stood in the source; every byte of it has been written and no other, through partial writes; on failure a prefix has been written; the capture is the bounded prefix of the plain payload |
| WebSocket.ForwardBody | internal/proxy/httpadapter/websocket.go:212-239 | chunks of 32 KiB are unmasked at their absolute offset, captured and written, whatever their number |
| WebSocket.ReadHeader | internal/proxy/httpadapter/websocket.go:170-208 | the header bytes kept for forwarding are exactly those consumed |
| WebSocket.WriteAll | internal/proxy/httpadapter/websocket.go:369-381 | all of the data is written, or a prefix of it and failure, for any partial writes |
| WebSocket.CaptureBuffer.Write | internal/proxy/httpadapter/http.go:297-310 | after writes in any pieces the buffer holds the bounded prefix of everything, its total, and truncation exactly when there was more |
| WebSocket.FrameIff | internal/proxy/httpadapter/websocket.go:169-208 | the frames accepted are exactly those whose length is below 2^63 and written in the fewest bytes |
| WebSocket.UnmaskConcat | internal/proxy/httpadapter/websocket.go:223-235 | unmasking in pieces, each at its absolute offset, is unmasking the whole |
| WebSocket.UnmaskCancels | internal/proxy/httpadapter/websocket.go:223-235 | unmasking what was masked gives the payload back |
| WebSocket.MaskedIff | internal/proxy/httpadapter/websocket.go:223-235 | masking turns, in octet i of the payload, exactly the bits that are set in octet i modulo 4 of the mask |
| WebSocket.MaskedFrameShowsPayload | internal/proxy/httpadapter/websocket.go:169-240 | what a client masked and sent is what the capture of its frame shows |
| ScramText.ParseAttributes | internal/proxy/mongoadapter/scram.go:208-221 | the loop over comma-separated parts fills the map or refuses as the recursion does |
| ScramText.AttributesIff | internal/proxy/mongoadapter/scram.go:208-221 | the texts accepted are exactly the prints of attributes with distinct one-byte keys and non-empty comma-free values |
| ScramText.ReadPrinted | internal/proxy/mongoadapter/scram.go:208-221 | reading printed attributes gives them back |
| ScramText.UnescapeName | internal/proxy/mongoadapter/scram.go:227-234 | the scan refuses exactly the texts with an incomplete escape |
| ScramText.UnescapeIff | internal/proxy/mongoadapter/scram.go:223-234 | a comma-free text unescapes to a name exactly when it is that name's escaped form |
| ScramKeys.EscapeInFull | internal/proxy/mongoadapter/scram.go:223-225 | a name is escaped character by character, an equals sign and a comma as an equals sign and their code in two hexadecimal digits |
| ScramText.LastProof | internal/proxy/mongoadapter/scram.go:174-178 | the last ",p=" of a client's final message is the one before its proof |
| Scram.XorBytes | internal/proxy/mongoadapter/scram.go:256-262 | the loop over a fresh buffer is the bytewise exclusive or |
| Scram.XorCancels | internal/proxy/mongoadapter/scram.go:187 | the key recovered from a proof with the same signature is the client key |
| Scram.Pbkdf2Key | internal/proxy/mongoadapter/scram.go:264-280 | the nested loops, combining in place, compute the concatenated blocks cut to length, for any length and count |
| Scram.DerivedKeyIsHi | internal/proxy/mongoadapter/scram.go:264-280 | with the digest's own size the result is Hi of RFC 5802 section 2.2 |
| ScramKeys.OctetsAreTheNumber | internal/proxy/mongoadapter/scram.go:264-280 | the block counter is four bytes whose value, the first counting most, is the block's number, for every number below 2^32 |
| ScramKeys.HiInFull | internal/proxy/mongoadapter/scram.go:264-280 | the salted password is the exclusive or, bit for bit, of a chain of MACs that starts with the salt and the bytes 0, 0, 0, 1 |
| ScramKeys.OneIteration | internal/proxy/mongoadapter/scram.go:264-280 | with one iteration the key is the MAC of the salt and the bytes 0, 0, 0, 1 |
| ScramKeys.BlockInFull | internal/proxy/mongoadapter/scram.go:264-280 | the last block of a longer key of one iteration is the MAC of the salt and the block's number |
| Scram.Client.Final | internal/proxy/mongoadapter/scram.go:66-97 | the client's fields and answer are those of the reply function; on every refusal the fields keep their values |
| ScramKeys.ReplyInFull | internal/proxy/mongoadapter/scram.go:66-97 | the client's answer written out: what was sent, what is hashed, the salted password, the text signed, the labels byte by byte, the proof, the message |
| ScramKeys.ReplyIff | internal/proxy/mongoadapter/scram.go:66-97 | the client answers exactly a first message with well-formed attributes, a longer nonce that starts with its own, a salt that decodes, 4096 to 10 million iterations, and a password that can be prepared |
| ScramKeys.KeysInFull | internal/proxy/mongoadapter/scram.go:88-96 | the proof is the exclusive or of the client key and the MAC of the signed text under its hash, and the signature the MAC under the server key, for the keys of the labels Client Key and Server Key |
| Scram.Client.Verify | internal/proxy/mongoadapter/scram.go:99-112 | the server's last message is accepted exactly when it carries no error and the expected signature |
| ScramKeys.VerdictIff | internal/proxy/mongoadapter/scram.go:99-112 | of the servers that send a signature the client accepts those that send the right one, and none that sends an error |
| Scram.Finish | internal/proxy/mongoadapter/scram.go:160-194 | the server's checks, in their order, give the answer function's outcome |
| ScramKeys.AnswerInFull | internal/proxy/mongoadapter/scram.go:160-194 | the server accepts exactly when channel binding and nonce are repeated and the key recovered bit by bit from the proof hashes to the stored key; its answer is the encoded MAC under the server key |
| ScramKeys.SignedIff | internal/proxy/mongoadapter/scram.go:174-178 | the server signs both first messages and the last one up to where its last ",p=" starts |
| ScramKeys.ServerSaltInFull | internal/proxy/mongoadapter/scram.go:125-158 | the server derives its keys from the prepared password, its salt and its iteration count as the client does |
| Scram.AnyFirstAcceptedIff | internal/proxy/mongoadapter/scram.go:125-158 | any text is taken as a first message exactly when it is a header without channel binding and attributes with distinct keys and non-empty values, among them the expected user's escaped name and a nonce of at least 8 bytes; what will be signed and the joint nonce are those of the text |
| Scram.FirstAcceptedIff | internal/proxy/mongoadapter/scram.go:125-158 | a first message of the repository's own client is taken exactly for a supported mechanism, the non-empty expected user and a nonce of at least 8 bytes |
| Scram.AnswerIff | internal/proxy/mongoadapter/scram.go:66-194 | whatever the two passwords, both ends sign the same text, and the server accepts exactly when the recovered key hashes to its stored key |
| Scram.ExchangeSucceeds | internal/proxy/mongoadapter/scram.go:62-194 | with the same password both ends accept each other, for every user, salt and comma-free nonces that pass the length checks |
| Scram.OnlyTheRightProof | internal/proxy/mongoadapter/scram.go:160-194 | whatever a client sends, with an ideal hash (injective on keys of its own size), it is accepted exactly when channel binding and nonce match and its proof is the one the listener's password gives for the signed text |
| Journal.OpenStore | internal/observation/store.go:25-66 | opening reads the lines in order, skips what is not JSON, fails on a line too long, keeps the last records and compacts when there were more |
| Journal.Store.Record | internal/observation/store.go:68-105 | ring, counter, file and last error after a record, with and without disk failures and unencodable items |
| Journal.Store.Rewrite | internal/observation/store.go:157-182 | compaction replaces the file by exactly the items, or leaves it alone |
| Journal.Store.List | internal/observation/store.go:107-136 | the loop from the newest item yields the first matches up to the limit |
| Journal.Store.Clear | internal/observation/store.go:138-149 | the ring is emptied, and the file exactly when the disk allows |
| Journal.MatchingIsExact | internal/observation/store.go:107-136 | the matches are all items with the upstream, protocol and outcome asked for whose texts hold the search text, and no other, newest first |
| Journal.AnswerIsExact | internal/observation/store.go:107-136 | the answer has at most the limit, which is taken if between one and the retention and else 250 or the retention; an item asked for is missing only from a full answer of newer ones |
| Journal.TextIsSearched | internal/observation/store.go:124-130 | an item that passes the filters is found if any of its seven texts holds the search text, in any case |
| Journal.RunSound | internal/observation/store.go:25-149 | over any run without disk failures, of items that can be encoded, the counter bounds the journal's growth, and until the ring is full the journal has one record for each item |
| Journal.JournalBounded | internal/observation/store.go:25-149 | after any such run over any file that opened, the journal holds at most max + max(1, max/4) - 1 records |
| Journal.ReopenIff | internal/observation/store.go:25-66 | in whatever state, reopening succeeds exactly when every line fits the reader's buffer, gives the tail of the journal, and every query is answered as before exactly when the ring was that tail |
| JournalFile.DecodedIsExact | internal/observation/store.go:48-54 | the records of a file are what its lines read back as, in order, every line that is no record passed over |
| JournalFile.OpenInFull | internal/observation/store.go:25-66 | opening fails on a line of 2 MiB; otherwise the ring is what the lines hold, or the newest of it, one line for each in the file |
| JournalFile.RecordInFull | internal/observation/store.go:68-98 | a record, with or without disk failures: the ring has the newest items, and the file its line added, or one line for each item of the ring when it is full and a quarter of it was written since the last compaction |
| JournalFile.JournalLength | internal/observation/store.go:68-98 | the exact length of the file and the counter after any number of records: one line each until the first compaction, then the ring and the remainder of a period |
| JournalFile.LengthAfterClear | internal/observation/store.go:138-149 | after a clear the first compaction comes when the ring is full, and one in every period from then on |
| JournalFile.LengthAfterOpening | internal/observation/store.go:25-98 | after opening any file the first compaction comes when the ring is full and a period is over |
| Journal.RestartAnswersAlikeIff | internal/observation/store.go:25-149 | after any run over no file or one the program wrote: a restart brings back the normal forms of the encodable items, and answers every query as before exactly when every item in the ring is its own normal form |
| Journal.AgreesIff | internal/observation/store.go:25-149 | after any run over any file that opened, whatever is recorded: the ring is the tail of the journal, and a restart answers alike, exactly when each item is what its own line reads back as; a restart brings back what those lines hold |
| Journal.NormalisedItemIsNotFound | internal/observation/store.go:68-136 | an item that its line does not read back as is found by a search before a restart and not after |
| Journal.ShortRunSucceeds | internal/observation/store.go:44-56 | with records whose lines fit, and go on fitting when read back and written again, no reopening in any run fails |
| Journal.LongRecordStopsReopening | internal/observation/store.go:44-56 | one record too long for the reader is accepted and listed, and the next start then fails |
| Journal.SuccessHeals | internal/observation/store.go:68-149 | whatever failed before, after a clear ring and journal agree, and after a compaction that succeeds the journal holds the items' normal forms, so they agree exactly when the items are normal |
| PostgresTracker.Tracker.HandleFrontend | internal/proxy/postgresadapter/tracker.go:80-139 | statements, portals, queue and deferred error change as the function on values says, each queued request a new object |
| PostgresTracker.Tracker.HandleBackend | internal/proxy/postgresadapter/tracker.go:141-200 | every reply changes the oldest request in place, or finishes it, as the function says; the rest of the queue is untouched |
| PostgresTracker.Tracker.FinishCurrent | internal/proxy/postgresadapter/tracker.go:202-236 | the oldest request leaves the queue with its own rows, tags and outcome recorded |
| PostgresTracker.RequestsConserved | internal/proxy/postgresadapter/tracker.go:80-236 | over every run, errors, simple queries and notifications included, what was sent is what is recorded and then what is waiting, in order |
| PostgresTracker.NamesFollowHistory | internal/proxy/postgresadapter/tracker.go:87-97 | over every run the maps hold, under each name, the text last parsed or bound and not closed since; a portal keeps the text its statement had when it was bound |
| PostgresTracker.RunCorrelated | internal/proxy/postgresadapter/tracker.go:80-236 | the state after an error-free pipeline follows from the requests and the reply blocks alone, however they interleave |
| PostgresTracker.IthRecordIsIthExecute | internal/proxy/postgresadapter/tracker.go:80-236 | in every such run the i-th record is that of the i-th Execute, with the query bound when it was sent and the rows and tag of its own block |
| PostgresTracker.AllAnswered | internal/proxy/postgresadapter/tracker.go:141-236 | when every Execute has been answered nothing is left waiting |
| PostgresErrors.RightRequestIff | internal/proxy/postgresadapter/tracker.go:80-236 | in any interleaving, with errors, deferred errors and simple queries: the tracker agrees with the server at every ReadyForQuery if and only if each failing batch has exactly one request left to answer and no simple query waits at a ReadyForQuery that is not its own |
| PostgresErrors.SkippedExecuteTakesLaterReply | internal/proxy/postgresadapter/tracker.go:186-198 | an Execute that the server skips after an error stays queued and takes the reply to a later one |
| PostgresErrors.StaleErrorMarksNextExecute | internal/proxy/postgresadapter/tracker.go:117-151 | an error in a batch without Execute outlives its ReadyForQuery and is attached to the next Execute, which succeeded |
| PostgresErrors.SyncFinishesWaitingQuery | internal/proxy/postgresadapter/tracker.go:190-198 | a simple query sent behind a Sync is recorded, without rows or tags, when that Sync's ReadyForQuery arrives |
| Manager.Controller.BeginApply | internal/proxy/manager.go:46-67 | the loops over running processes and statuses, in any map order, cancel and drop exactly what the list does not want as it is |
| Manager.Controller.EndApply | internal/proxy/manager.go:74-94 | the loop over the list starts what is wanted and not running, and sets the other statuses |
| Manager.Controller.StopUnwanted | internal/proxy/manager.go:53-61 | whatever the map order, the processes not kept are cancelled and leave the map, the kept ones are untouched |
| Manager.Controller.CloseAll | internal/proxy/manager.go:127-135 | every running process is cancelled and none stays in the map |
| Manager.Controller.ChangeStatus | internal/proxy/manager.go:99-105 | a status callback writes only for the process that the map holds |
| Manager.Controller.NoteFailure | internal/proxy/manager.go:106-115 | an adapter's error is noted and its entry removed only while it is the one in the map |
| Manager.RunSound | internal/proxy/manager.go:46-142 | in every interleaving the map holds uncancelled, enabled, served processes with a status, and every other process is cancelled or finished |
| Manager.OneProcessPerItem | internal/proxy/manager.go:46-142 | in every interleaving an item has at most one process that is neither cancelled nor returned, and the map holds it |
| Manager.SupersededIsSilent | internal/proxy/manager.go:97-116 | once a process is not the one in the map it never is again, and nothing it does later changes a status or what runs |
| Manager.HolderIsHeard | internal/proxy/manager.go:97-116 | what the process in the map says, or fails with, is shown for its item and no other; only a failure that is an error is shown, and it ends the service |
| Manager.ShownIsLastWord | internal/proxy/manager.go:46-142 | in every interleaving an item that is served shows the last word of the process that serves it, or that it is starting |
| Manager.ApplyAchieves | internal/proxy/manager.go:46-95 | after an uninterrupted Apply exactly the wanted items with a factory run, as listed; unchanged processes are the same ones, others are cancelled; statuses are those of the listed items |
| Manager.StatusesAfterApply | internal/proxy/manager.go:62-94 | after an uninterrupted Apply a kept process keeps its status, a started one is starting, and an item that does not run is shown as disabled or without adapter, by its last entry in the list |

## Left out

- Sockets, TLS, deadlines, HTTP transports and the file system are byte sequences, nondeterministic outcomes or parameters; a frame or packet is written as a whole except in WebSocket, where writes may be partial.
- Timestamps, random identifiers, summary strings, JSON shapes of recorded payloads and the user interface.
- JSON, BSON, protobuf, gzip, hash functions, HMAC, base64 and PRECIS are parameters, with the laws they need stated as predicates (`Journal.Lawful`, `Scram.Lawful`, `Scram.CollisionFree`).
- MongoDB wire parsing and correlation, which rest on a BSON library.
- The PostgreSQL adapter's own SCRAM code, its message parsers, captured row values and payload sizes; messages reach the tracker parsed.
- Upper-casing and white space in Redis commands are those of ASCII.
- Redis: in the pipeline the upstream replies once to each forwarded command; which frames a server takes for one command is what `RedisServer.ForwardedIsOneCommandIff` says.
- Redis: after a shutdown action the model does not follow the draining of channels; errors of individual sockets appear only as a shutdown.
- AMQP: a record has its problem, not the outcome shown for it, which is an error also for returned messages and for close methods that nobody answered.
- AMQP: method arguments other than the no-wait bit, and property values of content headers, are not decoded; the record of a connection.blocked notice is not modelled; negotiation of tune values is left out.
- AmqpTable.ItemsDecode: states nothing about arrays on malformed input, because the program does not require an array to end at its declared length.
- AMQP: binary field values keep their length only and floating-point fields their bits; a timestamp keeps its seconds, not its text.
- MySQL: the "N RESULTS" label is not claimed to equal the number of results; rendered previews of rows and values, the handshake, and COM_STATISTICS text are left out.
- MysqlResponse.ResponseReadExactly: requires terminators under nine bytes, because longer ones are not recognised; `MysqlResponse.TerminatorRecognisedIff` is the exact condition. Replies that open a cursor are the subject of `MysqlAccepts.CursorReplyReadIff`.
- MySQL: an EXECUTE has at most 65535 parameters, as the prepare reply's 16-bit count allows; COM_STMT_RESET is left out.
- RedisServer: the server's limits on a line of words and its timeouts are left out; a line that quotes badly is a refusal.
- gRPC: rendering, decompression and decoding of captured messages; the encoding header; error texts are kinds with their numbers.
- WebSocket: the upgrade handshake and the recording of frames.
- PostgresErrors.RightRequestIff: leaves out a simple query sent while extended messages wait for their Sync, a reply whose error text is empty, and COPY data; the server is one that answers in order and sends one error a batch.
- SCRAM: failures of the random source; names and nonces are bytes, one `char` each.
- Journal: a failed append leaves the file as it was, so partly written lines are not modelled; subscribers are left out.
- Manager: waiting for stopped adapters affects only the order of steps, and steps may come in any order; cancellation by the parent context appears as an adapter that returns; reading the statuses is left out.
- Configuration loading, command line, management routes and the other adapters.
