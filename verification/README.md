# grpc_messenger broker, modelled in Dafny

This project models the core of a gRPC direct-messaging broker. Clients register a
nickname with `ReceiveMessages` and get back an inbound stream. They send point-to-point
messages with `SendMessage`. The broker routes each message to the recipient's
channel and records it in a per-user Redis list. The model covers the broker in
`src/server.rs` and the terminal client's `recipient: text` line parser in
`src/client.rs`.

The broker is a sequential state machine over immutable values:

- `Broker.Server` is the registry plus the Redis keyspace.
- The registry maps each nickname to a `Session`. A session is its channel's queue
  plus a `closed` flag, which says the client dropped the receiving end.
- The keyspace maps keys `user:<name>:messages` to a `LogStore.Log`. A log is the
  list of stored entries plus the key's absolute expiry.
- An entry that decodes is represented as `Encoded` of the message it decodes to; any
  other blob is `Undecodable`.

Redis failures are an input. A `LogStore.Link` says how many of the Redis commands one
call issues still succeed. It also says whether the first command that reports an
error took effect anyway, as happens when Redis ran the command and the reply was
lost. After that command the call stops, as the source's `?` does. Each log therefore
holds the effect of exactly the commands that took effect, whatever the call reported.

Modules:

- `wrappers.dfy` (`Wrappers`): `Option`.
- `messages.dfy` (`Messages`): the message record, stored entries, and decoding a list
  with undecodable entries skipped.
- `store.dfy` (`LogStore`): RPUSH, EXPIREAT and LRANGE over the per-user lists;
  `store_message_for`, `store_message` and `get_message_history`.
- `broker.dfy` (`Broker`): `send_message`, `receive_messages` (stale eviction, the
  single retry, history replay), and a client's disconnect.
- `broker_properties.dfy` (`BrokerProperties`): properties across several calls.
  These cover registry discipline, reconnect and replay order. They also cover the
  invariant "every message a session received is in its owner's log, in order".
  When calls run one at a time, it holds unless a send reported a storage failure.
- `subsequence.dfy` (`Subsequence`): order-preserving subsequences, used by that
  invariant.
- `line_parser.dfy` (`LineParser`): `splitn(2, ':')`, Unicode `trim`, and the
  client's message construction.

Behaviour of the code worth knowing:

- A send to a nickname whose entry exists but whose client has disconnected is
  answered `Internal`, not `NotFound`. The lookup at src/server.rs:99 does not check
  liveness, so the push fails (`Broker.Send`).
- The stale-entry retry is not atomic. The write lock is released at src/server.rs:133
  before the recursive call. In the sequential model the retry always finds the slot
  vacant, so it recurses at most once.
- On a vacant slot the registry write lock taken at src/server.rs:127 stays held
  through the Redis LRANGE (src/server.rs:146) and the replay loop, until the call
  returns. No send can reach the new channel before replay ends, so replaying inside
  `Broker.Register` in one step is what the code does. A slow Redis blocks every
  send and every registration meanwhile.
- A registration whose history cannot be read returns `Internal` but leaves its
  inserted entry behind. That entry is already closed, because the receiver is
  dropped with the error.
- The replay loop's "stop at the first failed push" is modelled. It can never fire,
  because the receiver is still held by the call while replay runs.
- The server refuses to start without `REDIS_URL` (src/server.rs:171), so there is
  no mode without the message log.

## Model

| member | source | states |
|---|---|---|
| Messages.Decode | src/server.rs:80 | an entry decodes exactly when it is the encoding of a message |
| Messages.Encode | src/server.rs:49 | decoding the stored encoding of a message gives back that message |
| Messages.DecodeAll | src/server.rs:78-81 | the history read has at most one message per entry, one per entry exactly when every entry decodes, and only messages whose encodings are stored |
| Messages.DecodeAllAppend | src/server.rs:78-81 | decoding a list splits over concatenation, so stored order is kept and undecodable entries drop out in place |
| Messages.DecodeEncodeAll | src/server.rs:78-81 | a list written only by the broker reads back as exactly the messages written, in order |
| Messages.AppendEncoded | src/server.rs:49 | RPUSH of an encoded message adds exactly that message at the end of the readable history |
| LogStore.Key | src/server.rs:46 | the key embeds the user name at a fixed position |
| LogStore.KeyInjective | src/server.rs:46 | two different users never share a Redis key |
| LogStore.RPush | src/server.rs:49 | RPUSH appends one entry to that user's list, keeps its expiry, and leaves every other user's log alone |
| LogStore.ExpireAt | src/server.rs:50-51 | EXPIREAT overwrites an existing key's expiry with the given instant, does nothing on a missing key, and touches nothing else |
| LogStore.StoreFor | src/server.rs:45-63 | success exactly when both commands (one when the timestamp is 0) succeed; the user's list gains exactly one entry when RPUSH took effect and is untouched otherwise; the expiry becomes a non-zero timestamp exactly when EXPIREAT took effect, and a zero timestamp leaves it unchanged; other users are untouched |
| LogStore.StoreMessage | src/server.rs:39-43 | the recipient's RPUSH and EXPIREAT come before the sender's, and for any outcome each log holds the effect of exactly those commands that took effect; on success the recipient's and the sender's logs each gain the message (a self-addressed one twice), both expiries equal a non-zero timestamp; third parties are never touched |
| LogStore.History | src/server.rs:65-83 | the read fails exactly when LRANGE fails; otherwise it returns no more messages than stored entries, each of them stored |
| LogStore.StoreForExtendsHistory | src/server.rs:45-83 | once the RPUSH of storing a message for a user took effect, that user's history is the old history followed by the message |
| Broker.Deliver | src/server.rs:100-106 | a push fails exactly when the receiver is gone; otherwise the message joins the end of the queue |
| Broker.Replay | src/server.rs:151-156 | replay into a live channel appends the whole history in order; into a closed one it pushes nothing |
| Broker.Send | src/server.rs:88-117 | an unknown recipient gives NotFound, a stale one gives Internal, and both change nothing; a live recipient gets the message at the end of its queue with no other channel changed; the result is Ok exactly when both log writes succeed, otherwise Internal with the message still queued |
| Broker.Register | src/server.rs:121-161 | the store is only read; a live entry gives AlreadyExists and no change; otherwise the nickname gets a new entry and every other entry is kept; with a readable store the new live queue is the user's decodable history in stored order and the result is Ok; without one the result is Internal and the new entry is already closed |
| Broker.Evict | src/server.rs:130-132 | removing a stale entry drops exactly that nickname and keeps every other entry |
| Broker.Disconnect | src/server.rs:126-130 | after a client drops its stream, its entry is no longer live but keeps its queue; the registry keys, the other entries and the store are unchanged |
| BrokerProperties.StartIsRecorded | src/server.rs:33-36 | a fresh server with an empty registry satisfies the delivered-is-recorded invariant |
| BrokerProperties.StaleRegistrationRetriesOnce | src/server.rs:128-134 | with a stale entry, registration is exactly registration after eviction, on a slot that is then vacant |
| BrokerProperties.RegisterKeepsLiveSessions | src/server.rs:135-140 | no registration, for any nickname, replaces or closes a live session |
| BrokerProperties.SendKeepsRegistry | src/server.rs:98-107 | sending never adds, removes, opens or closes a registry entry |
| BrokerProperties.ReconnectAfterDisconnect | src/server.rs:129-134 | after its client disconnects, a nickname can register again and is then live |
| BrokerProperties.SendThenReconnectReplays | src/server.rs:146-156 | after a message to a live recipient is stored, a reconnect replays the earlier history followed by that message, twice when it was self-addressed; this is the order when calls run one at a time |
| BrokerProperties.RegisterKeepsRecorded | src/server.rs:142-158 | registration keeps every queue an ordered subsequence of its owner's readable log |
| BrokerProperties.DisconnectKeepsRecorded | src/server.rs:126-130 | a disconnect keeps the delivered-is-recorded invariant |
| BrokerProperties.SendKeepsRecorded | src/server.rs:99-112 | every send not answered with a storage failure keeps the delivered-is-recorded invariant |
| BrokerProperties.StoreFailureBreaksRecorded | src/server.rs:108-111 | a storage failure after the push returns Internal with the message already queued but not logged, breaking the invariant |
| BrokerProperties.LostReplyStillRecords | src/server.rs:108-111 | when the sender's RPUSH ran but its reply was lost, the send answers Internal although the message is queued and in both logs |
| LineParser.TrimStart | src/client.rs:49-50 | the result is a suffix with only whitespace removed in front and no leading whitespace left |
| LineParser.TrimEnd | src/client.rs:49-50 | the result is a prefix with only whitespace removed behind and no trailing whitespace left |
| LineParser.Trim | src/client.rs:49-50 | the result has no surrounding whitespace, sits in the input with only whitespace around it, and an already trimmed string is unchanged |
| LineParser.TrimPadded | src/client.rs:49-50 | trimming removes any whitespace padding around a trimmed string |
| LineParser.FirstColon | src/client.rs:47 | finds the position of the first colon, and finds none exactly when the line has no colon |
| LineParser.SplitOnce | src/client.rs:47 | `splitn(2, ':')` gives the whole line when there is no colon; otherwise it gives the colon-free text before the first colon and everything after it |
| LineParser.SplitOnceUnique | src/client.rs:47 | a colon-free prefix followed by a colon is exactly the first part of the split |
| LineParser.ParseLine | src/client.rs:47-61 | a line is refused exactly when it has no colon; otherwise the message is from the nickname, has delete timestamp 0, and has a trimmed, colon-free recipient and trimmed content |
| LineParser.ParseLineSplitsAtFirstColon | src/client.rs:47-50 | only the first colon splits: the recipient is the trimmed text before it and the content is the trimmed rest, later colons included |
| LineParser.ParseLineRoundTrip | src/client.rs:47-57 | a colon-free trimmed recipient and trimmed text, written `r: c` with any whitespace padding, parse back to exactly themselves |
| LineParser.ParseLineEmptyRecipient | src/client.rs:48-50 | a line starting with a colon still gives a message, addressed to the empty nickname |

## Left out

- Concurrency is not modelled: the tokio `RwLock`, the async recursion and the channel internals. Calls run one at a time. Sends racing with a registration in the window where the lock is released before the stale-entry retry are not represented. Nor are two concurrent sends to one recipient: each drops the registry guard after its push (src/server.rs:107) and only then stores (src/server.rs:108), so their RPUSHes can run in the other order than their pushes. The log then holds the messages in a different order than the queue, and a reconnect replays them in that log order.
- The `try_write` / `read().clone()` fallback for the Redis connection is collapsed to one store operation, because both branches issue the same commands.
- Redis I/O and time are not modelled. The expiry is kept only as a field of the log, and time does not advance. Keys are never evicted, and Redis deleting a key at once for an EXPIREAT in the past is not represented.
- The prost wire format is not modelled. An entry that decodes is represented as `Encoded` of the message it decodes to, and the broker's own writes are such entries.
- `delete_timestamp` is an unbounded integer. The protobuf field's integer width is not modelled.
- Consumption of a stream by its client is not modelled. A session's queue is everything ever pushed into its channel, in push order.
- Status message texts and logging are left out. Only the status code and, for `Internal`, which step failed are kept.
- Process bootstrap is left out: `main`, dotenv, the logger, port parsing and the listener.
- The terminal client's connection setup, its stdin and stdout loop, and its printer task are left out. Only the line parser is modelled, and the line terminators removed by `lines()` are taken as already gone.
- The web client (`web_client/js_scripts/client.js`) is left out. It is DOM and timer code. It computes `delete_timestamp` in milliseconds while the server passes it to EXPIREAT as seconds. Its `deleteDelay == null` test can never be true.
- LogStore.History: its own contract gives only bounds and membership. The exact content, the decodable entries in stored order, is stated by `Broker.Register`, `LogStore.StoreForExtendsHistory` and the `Messages` lemmas.
