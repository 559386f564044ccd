# Tools_API chat gateway and encoders, modelled in Dafny

This project models the core of the Tools_API PHP server, in three groups.

**1. The websocket chat gateway.**
- The Redis connection registry:
  - `CHAT-CONNID-TO-NID-<conn>` maps a connection to a neighbour id;
  - `CHAT-NID-TO-CONNID-<nid>` holds a PHP array of a neighbour's connection ids.
- The startup purge of both key families.
- The dispatch of one inbound envelope through the seven-entry responder table, with its identification gate, the `unsupported` fallback and the `error` reply.
- The receive loop of a connection and the disconnect block after it.
- One step of the `new_chat_message` listener, which fans a new message out to the live connections of the neighbours involved.

**2. The chat handlers.** `identify`, `ping`, `send_message`, `get_chats`, `get_chat`, `get_messages`, `mark_message_read` and the push handler `NewMessageSender`. Each is a pure transition over:
- the registry;
- an abstract relational store: the `chat`, `chat_neighbor` and `chat_message` tables and `neighbor.chat_last_seen`.

**3. Small encoders and parsers.**
- The UUID v4 formatter of `Util::uuidv4` (section 4.4 of RFC 4122), over 16 given bytes.
- From `Tool.php`:
  - the PostgreSQL text-array literal written to and read back from `tool.search_terms` (array syntax per section 8.15.6 of the PostgreSQL manual);
  - the friend-id literal and optional full-text clause of `listAllTools`;
  - the parameter lists of the `updateTool`/`createTool` statements.
- The code-fence stripping of `GemeniAI::parseJsonBlock`.
- The id window, exclusion, ordering, limit and friend filter of `News::getNews`.

The model follows the code literally, including its quirks, and proves them as lemmas:
- `identify` appends without de-duplication.
- Disconnect edits the reverse array keyed by the connection id, and unsets by index.
- The chat lookup can reuse a chat the sender opened with themselves.
- `get_messages` has no participant check.
- The news friend filter runs after the `LIMIT`.

The model is organised in these modules:
- `Wrappers`, `Seqs`, `Sorting`, `Text`: results, sequence filtering, insertion sort, and PHP `implode`/`explode`/`trim`.
- `Wire`: decoded requests, faults and reply envelopes.
- `Registry`, `RegistryFacts`: the Redis key space.
- `ChatStore`: the tables and the shared SQL.
- `PingTime`: the `Y-m-d\TH:i:s.v\Z` timestamp.
- `Responders`, `ResponderFacts`: the handlers.
- `ChatServer`, `ServerFacts`: the gateway.
- `Uuid`, `ToolSql`, `JsonBlock`, `News`: the encoders and parsers.

Inputs:
- The following are parameters of the model: the database clock, the PHP clock, the token validator (`Util::validateJWT`), the set of live websocket clients, the JSON decoder of `parseJsonBlock`, the spatial test `ST_DWithin` of `getNews`, and the friend list of `listAllTools`/`getNews`.
- `Util::getFriends` and `Util::validateJWT` are not part of this model.

## Model

| member | source | states |
|---|---|---|
| Registry.NidForConn | src/Chat/ChatUtil.php:9-15 | an unidentified connection yields 0, never null |
| Registry.MyNeighborId | src/Chat/Responder/Responder.php:22-31 | succeeds iff the forward key holds a truthy value (so "" and "0" raise), returns that integer, and then agrees with `getNIDforConnId` |
| Registry.Push | src/Chat/Responder/IdentifyResponder.php:22-24 | `$array[] = conn` keeps the existing entries and their distinct indices, and appends the connection at the end |
| Registry.NextIndex | src/Chat/Responder/IdentifyResponder.php:23 | the appended index is one past the largest index in use, 0 for an empty array |
| Registry.Unset | src/Chat/ChatServer.php:231 | exactly the elements whose index equals the given id are dropped; without such an index the array is unchanged |
| Registry.Register | src/Chat/Responder/IdentifyResponder.php:16-24 | the forward key is set to the claimed id, the connection is appended to that neighbour's reverse array, and every other key is kept |
| Registry.Unregister | src/Chat/ChatServer.php:209-233 | the forward key is deleted unless it holds null; the reverse key named after the connection id loses the element indexed by that id; every other key is kept |
| Registry.Purge | src/Chat/ChatServer.php:75-78 | exactly the keys matching either chat glob are removed and the others keep their values |
| RegistryFacts.PurgeClearsChatKeys | src/Chat/ChatServer.php:71-78 | after the purge no chat key is left, every other key is kept, and the registry invariant holds |
| Wire.IntParam | src/Chat/Responder/SendMessageResponder.php:14-30 | an id parameter is accepted iff it is a JSON integer; otherwise the model fails the request with that parameter named (for null this departs from the source; see "## Left out") |
| Responders.ClaimedNid | src/Chat/Responder/IdentifyResponder.php:18-20 | the token's `neighborId` is an id iff it is an integer claim, PHP null otherwise |
| Responders.LastSeenOf | src/Chat/Responder/IdentifyResponder.php:27-36 | with a neighbour row for the claimed id, the reported value is that row's `chat_last_seen`; without one, or without an id, it is null |
| Responders.Identify | src/Chat/Responder/IdentifyResponder.php:10-49 | succeeds iff the validator returns a non-empty map. On success it overwrites the forward key, appends the connection to the reverse array, keeps all other keys, and returns the last-seen value without writing it. On failure it changes nothing |
| Responders.Ping | src/Chat/Responder/PingResponder.php:8-16 | the reply is a pong whose timestamp parses back to the given UTC time and is 24 characters for 4-digit years; nothing is written |
| PingTime.Format | src/Chat/Responder/PingResponder.php:9-10 | the text has the `YYYY-MM-DDTHH:MM:SS.mmmZ` shape, 20 characters longer than the year |
| PingTime.FormatParse | src/Chat/Responder/PingResponder.php:10 | reading the fixed-width fields back gives the formatted time |
| Responders.LastPairChat | src/Chat/Responder/SendMessageResponder.php:27-34 | the loop keeps the last returned row whose group has two rows, all in {me, them}; none means no returned row qualifies |
| Responders.FindChat | src/Chat/Responder/SendMessageResponder.php:20-34 | a found chat has exactly two participant rows, all in {me, them}; none is found iff no chat has that shape |
| Responders.SendMessage | src/Chat/Responder/SendMessageResponder.php:9-96 | raises without a usable sender id or integer `to`. Otherwise it reuses the found chat, or creates one chat started by the sender with rows for both sides. It appends exactly one message from the sender with the request's body, and replies with the ids used |
| ResponderFacts.FindChatSymmetric | src/Chat/Responder/SendMessageResponder.php:20-30 | the lookup gives the same answer whichever side sends |
| ResponderFacts.SendThenLookupFindsChat | src/Chat/Responder/SendMessageResponder.php:19-64 | after a send, the lookup from either side finds the chat the message went to |
| ResponderFacts.SendCreatesAtMostOneChat | src/Chat/Responder/SendMessageResponder.php:36-80 | a send keeps every existing chat and participant row, adds at most one chat, and adds exactly one message |
| ResponderFacts.SelfChatCapturesSend | src/Chat/Responder/SendMessageResponder.php:20-34 | a chat someone opened with themselves captures their message to another neighbour, who takes no part in it |
| ChatStore.LatestSendTs | src/Chat/Responder/GetChatsResponder.php:17 | `max(send_ts)` is attained by a message and bounds them all |
| ChatStore.Summarize | src/Chat/Responder/GetChatsResponder.php:14-27 | `other_members` is SQL NULL iff the viewer is the chat's only participant (the filtered `array_agg` has no rows), and otherwise the participants minus the viewer; `read` holds iff every message of the chat was read or sent by the viewer; `latest_message_ts` is the chat's latest send time |
| Responders.ListedChats | src/Chat/Responder/GetChatsResponder.php:13-28 | exactly the chats with the viewer as participant and at least one message, each as often as the table holds it (once per chat id), ordered by `started_ts` |
| Responders.GetChats | src/Chat/Responder/GetChatsResponder.php:8-40 | raises iff the viewer is unknown; otherwise read-only, listing exactly the summaries of the viewer's chats that have messages, by start time: one summary per listed chat, position by position |
| Responders.GetChat | src/Chat/Responder/GetChatResponder.php:8-52 | read-only; found iff the chat exists, the viewer takes part and it has a message, with that chat's summary; otherwise echoes `chat_id` with `result:false` |
| ResponderFacts.GetChatListed | src/Chat/Responder/GetChatResponder.php:16-45 | a chat `get_chat` finds is among those `get_chats` lists |
| ResponderFacts.ListedChatFound | src/Chat/Responder/GetChatsResponder.php:13-33 | every chat `get_chats` lists is found by `get_chat`, with the same row when chat ids are unique |
| Responders.ListingView | src/Chat/Responder/GetMessagesInChatResponder.php:17-33 | `read` holds iff the viewer is in `read_by` or sent it; `sent_by_me` iff the viewer sent it; the viewer's own messages are read |
| Responders.NewestFirst | src/Chat/Responder/GetMessagesInChatResponder.php:17-23 | a permutation of the chat's messages ordered by `send_ts` descending |
| Responders.GetMessages | src/Chat/Responder/GetMessagesInChatResponder.php:9-41 | read-only; echoes `chat_id` and lists every message of the chat, as the viewer sees it, newest first |
| ResponderFacts.GetMessagesIgnoresMembership | src/Chat/Responder/GetMessagesInChatResponder.php:17-23 | a viewer who takes no part in a chat still gets its messages |
| Responders.MarkRow | src/Chat/Responder/MarkMessageReadResponder.php:16-21 | only the message with the id changes, and only by appending a viewer who is not yet in `read_by` |
| Responders.MarkMessageRead | src/Chat/Responder/MarkMessageReadResponder.php:8-33 | every row is the conditional append of that row, nothing else in the store changes, and the reply echoes the id |
| ResponderFacts.MarkMessageReadIdempotent | src/Chat/Responder/MarkMessageReadResponder.php:16-26 | marking a second time changes nothing |
| ResponderFacts.MarkRowOnce | src/Chat/Responder/MarkMessageReadResponder.php:17-20 | after marking, the viewer is in `read_by` exactly once |
| Responders.PushedView | src/Chat/Responder/NewMessageSender.php:17-29 | `read` holds iff the viewer is in `read_by`, with no exception for the sender; `sent_by_me` iff the viewer sent it |
| ResponderFacts.OwnMessageReadOnlyInListing | src/Chat/Responder/NewMessageSender.php:17-29 | the sender's unmarked message is read in the listing but unread in the push |
| Responders.NewMessage | src/Chat/Responder/NewMessageSender.php:9-47 | raises iff the viewer is unknown, since the lookup is before the `try`. Otherwise read-only: found iff `msg_id` is an integer naming a message, with its chat id and the viewer's view, else `result:false` echoing the id |
| ChatServer.LookupResponder | src/Chat/ChatServer.php:47-55 | a handler is found iff the type is one of the seven names, and the push handler is never one |
| ChatServer.Respond | src/Chat/ChatServer.php:174-182 | only `identify` writes the registry; only handlers that require identification raise; the registry invariant and id freshness are kept |
| ChatServer.HandleEnvelope | src/Chat/ChatServer.php:162-203 | no reply iff there is no `type`. An unknown type replies `unsupported` with the `getNIDforConnId` id. A gated handler on an unidentified connection replies `unsupported` with id 0. An exception replies `error` with the request's `message_uuid`. `unsupported` and `error` change nothing |
| ChatServer.Receive | src/Chat/ChatServer.php:162-204 | exactly one reply per frame that has a `type`, and the registry invariant holds throughout |
| ChatServer.Disconnect | src/Chat/ChatServer.php:206-233 | with a non-null forward value, the neighbour's `chat_last_seen` is set to now and the forward key is deleted; otherwise neither happens; the registry changes as `Unregister` says |
| ChatServer.Serve | src/Chat/ChatServer.php:145-234 | the loop sends what `Receive` sends and ends in the disconnect state, one reply per typed frame |
| ChatServer.LiveConns | src/Chat/ChatServer.php:127-133 | a neighbour's listed connections with a live client, each as often as it is listed |
| ChatServer.Targets | src/Chat/ChatServer.php:124-139 | a connection is targeted iff it is live and listed under some neighbour of the event |
| ChatServer.PushReply | src/Chat/ChatServer.php:119-137 | the listener's call of `NewMessageSender` for one connection: the handler's reply with the event's `msg_id`, raising iff the connection has no neighbour id |
| ChatServer.Deliver | src/Chat/ChatServer.php:127-138 | targets are sent to in order, each with its own push; the listener stops at the first push that raises, with that exception, and only then; without a stop every target is sent to |
| ChatServer.DeliverFacts | src/Chat/ChatServer.php:124-138 | each delivery carries the `NewMessage` reply for its connection; the listener stops iff some target has no neighbour id, and the stop names the first such target |
| ChatServer.Notify | src/Chat/ChatServer.php:115-138 | the pushes go to the event's targets in visiting order, each carrying the `NewMessage` reply for that connection and the event's message id. The listener stops iff some target has no neighbour id; the stop names the first such target, after every earlier target was sent to; without a stop every target is sent to |
| ServerFacts.IdentifyAccepting | src/Chat/Responder/IdentifyResponder.php:11-24 | an accepted token writes the registry exactly as `Register` does |
| ServerFacts.IdentifyTwiceListsTwice | src/Chat/Responder/IdentifyResponder.php:20-24 | identifying the same connection twice lists it twice, so it is sent each message for that neighbour twice more |
| ServerFacts.MultiDeviceDelivery | src/Chat/ChatServer.php:124-138 | a neighbour identified on two live connections receives a push on both, unless the listener stops |
| ServerFacts.StaleEntrySurvivesDisconnect | src/Chat/ChatServer.php:226-233 | a disconnected connection stays in its neighbour's reverse array |
| ServerFacts.StaleEntryStopsListener | src/Chat/ChatServer.php:115-138 | a stale reverse entry whose id is reused by an unidentified live client stops the listener before anything is sent |
| Uuid.BinToHex | src/Util.php:29 | two lowercase hex digits per byte, high nibble first |
| Uuid.HexToBinToHex | src/Util.php:29 | decoding the hex text of bytes gives the bytes back |
| Uuid.BinToHexToBin | src/Util.php:29 | encoding the bytes of even-length lowercase hex gives the hex back |
| Uuid.Quads | src/Util.php:29 | `str_split($h, 4)` cuts the text into consecutive 4-character pieces |
| Uuid.Stamp | src/Util.php:23-26 | byte 6's high nibble becomes 4 and byte 8's top two bits become 10; every other bit is kept |
| Uuid.StampIdempotent | src/Util.php:23-26 | stamping twice is stamping once |
| Uuid.Uuidv4 | src/Util.php:18-29 | 36 characters with dashes at 8, 13, 18 and 23 and lowercase hex elsewhere; character 14 is `4`; character 19 is one of `89ab`; every other digit is the matching nibble of the input |
| Uuid.ParseUuid | src/Util.php:18-29 | reading the text back gives the stamped bytes |
| Uuid.UuidParse | src/Util.php:18-29 | every well-formed version-4 text is produced from the bytes it reads back to |
| ToolSql.EncodeSearchTerms | src/Models/Tool.php:248-251 | `{}` iff there are no terms; always brace-enclosed |
| ToolSql.DecodeColumn | src/Models/Tool.php:41-47 | a null or empty column (loosely equal to null) is left alone; otherwise it is exploded into at least one comma-free term |
| ToolSql.SearchTermsRoundTrip | src/Models/Tool.php:41-46 | reading back a written non-empty list of storable terms gives the terms |
| ToolSql.EmptyTermsReadBackAsOneEmptyTerm | src/Models/Tool.php:43 | `{}` reads back as one empty term, not as no terms |
| ToolSql.BareListRoundTrip | src/Models/Tool.php:41-46 | the unquoted `{a,b}` form the database prints for bare terms reads back as the same terms |
| ToolSql.SearchVariableTerms | src/Models/Tool.php:71-73 | splitting the search variable at its connector gives back the terms |
| ToolSql.ListAllToolsQuery | src/Models/Tool.php:56-124 | no query iff there are no friends. Exactly the neighbour, friend-id and radius parameters are bound, plus `:searchVariable` iff there are terms, and the friend-id literal reads back as exactly the friend ids. The clause mentions `:searchVariable`, and that parameter is bound to the joined terms, iff there are terms |
| ToolSql.IdsLiteralRoundTrip | src/Models/Tool.php:66-67 | the friend-id literal reads back as the friend ids |
| ToolSql.UpdateStatement | src/Models/Tool.php:230-267 | the statement text is `update tool set` with one `f = :f` entry per bound column, then the id and owner test; the placeholders found in that text are exactly the bound parameter names; `photo_link` is bound iff the filename is truthy; the encoded search terms are bound; the owner column is not set |
| ToolSql.CreateStatement | src/Models/Tool.php:288-327 | the statement text lists the bound columns and then their placeholders in the same order; the placeholders found in that text are exactly the bound parameter names; `photo_link` iff the filename is truthy; the owner and the encoded search terms are bound |
| ToolSql.UpdateSqlPlaceholders | src/Models/Tool.php:245-264 | the placeholders in the update text are those of its SET entries plus `:toolId` and `:neighborId` |
| ToolSql.InsertSqlPlaceholders | src/Models/Tool.php:302-323 | the placeholders found in the insert text are exactly `:f` for each listed column `f` |
| ToolSql.CreateColumnsLineUp | src/Models/Tool.php:299-303 | column and placeholder lists have equal length, with `placeholders[i] = ":" + fields[i]`; the columns are distinct, owner first |
| ToolSql.UpdateColumnsDistinct | src/Models/Tool.php:231-245 | the SET list names distinct columns: 8 with a photo, 7 without |
| Text.SplitJoin | src/Models/Tool.php:43 | `explode` undoes `implode` when no part holds the separator |
| Text.JoinSplit | src/Models/Tool.php:73 | `implode` undoes `explode` |
| Text.Trim | src/Models/GemeniAI.php:52 | the result is the slice between the maximal runs of trimmed characters at both ends |
| Text.TrimIdempotent | src/Models/GemeniAI.php:63 | trimming twice is trimming once |
| Text.IntToDecimalRoundTrip | src/Models/Tool.php:67 | an integer's decimal text reads back as the integer |
| JsonBlock.StripFences | src/Models/GemeniAI.php:55-60 | the result is a contiguous slice, shorter by 0, 3, 7 or 10. The prefix is removed iff the text starts with `` ```json ``; the suffix iff the rest ends with `` ``` `` |
| JsonBlock.ParseJsonBlock | src/Models/GemeniAI.php:50-72 | succeeds iff decoding the twice-trimmed unfenced text succeeds and yields an array, returning that value |
| JsonBlock.FencedBlockReachesDecoder | src/Models/GemeniAI.php:52-63 | a fenced block surrounded by whitespace reaches the decoder as its trimmed body |
| JsonBlock.PlainTextReachesDecoder | src/Models/GemeniAI.php:52-63 | text without fences reaches the decoder trimmed and otherwise unchanged |
| JsonBlock.UntaggedFenceKeepsBackticks | src/Models/GemeniAI.php:55-60 | a fence without the `json` tag keeps its opening backticks |
| News.Window | src/Models/News.php:27-35 | an item is in the window iff it is not the caller's, passes the distance test, and has `afterId < id < beforeId` |
| News.Page | src/Models/News.php:13-48 | at most `maxItems` qualifying items, ordered by `occur_ts` then `id` descending, never holding an item more often than the window does. A qualifying item is left out only when the page is full of items ordered before it. The whole window is returned when it fits. Nothing is returned without the caller's neighbour row |
| News.KeepWithKeys | src/Models/News.php:53-55 | `array_filter` keeps exactly the visible items, in order, with their original keys |
| News.GetNews | src/Models/News.php:11-58 | fails iff the limit is negative. Otherwise each item of the page is kept, keyed by its position in the page, iff it is visible, and nothing else is kept: at most `maxItems` visible qualifying items, with increasing keys, newest first |
| News.AllVisibleWhenUnderLimit | src/Models/News.php:50-55 | when the window fits the limit, every visible qualifying item is returned |
| News.FilterAfterLimit | src/Models/News.php:36-55 | with a limit of one, a stranger's newer tool item takes the slot and is dropped, so nothing is returned although a visible item qualifies |

## Left out

- Amp machinery is not modelled: the websocket server, the async LISTEN stream, the event loop and logging. The listener body is a function of one decoded event and the set of live clients.
- JSON decoding of frames is not modelled: a frame is already a decoded object, or `NotAnObject`. Field values are JSON scalars only; nested arrays and objects in requests are not modelled.
- The event payload is not decoded: an event is its message id and the list of neighbour ids. A neighbour entry is always an integer.
- Credential validation is a function parameter returning a possibly-empty map. `Util::validateJWT` is not part of this model.
- The clocks are inputs: the database's `now()` (an integer instant) and PHP's UTC `DateTime`. `random_bytes` is also an input: `Uuid.Uuidv4` takes the 16 bytes as a parameter.
- Spatial predicates are parameters: `ST_DWithin` in `getNews` is a function of the item. The radius, and the float arithmetic that converts miles to metres, are not modelled. The `distance_m` and `type` columns of the news query are not modelled.
- Friend lists are inputs: a sequence of ids for `listAllTools` and a set of keys for `getNews`. `Util::getFriends` is not part of this model.
- Transactions are not modelled. `SendMessage` is one atomic transition, as is `createTool`. The `tool_count` update of `createTool` is not modelled, and `ToolSql.CreateStatement` covers only the insert.
- Responders.MarkMessageRead: the second, parameterless `execute()` at MarkMessageReadResponder.php:26 is not modelled. The model assumes the database client re-runs the update with the values bound before, which changes nothing. Whether the Amp client accepts a call without the named parameters is not part of this model. If it raises an `\Error`, the `catch (Exception $e)` at ChatServer.php:190 does not catch it, so the reply is never sent and the client loop ends. The model does not cover that path.
- Wire.IntParam: the model answers every `to`, `chat_id` or `id` field that is not a JSON integer with an `error` reply (`BadParameter`), before any write. This matches the source only where the database rejects the value. The database's coercion of numeric strings is not modelled. A null or absent field does not fail in the source, and the model departs from it:
  - `get_chat` matches no row and replies `result: false` with a null `chat_id`;
  - `get_messages` replies an empty message list with a null `chat_id`;
  - `mark_message_read` changes nothing and echoes a null `id`;
  - `send_message`: `neighbor_id IN (:me, NULL)` is NULL for the other participant, and `bool_and` ignores NULLs. So the lookup matches any two-row chat that holds the sender, and the message goes into it.
- Responders.ClaimedNid: a `neighborId` claim that is not a JSON integer is treated as PHP null, including numeric strings.
- ChatServer.Disconnect: the last-seen update binds its parameter under the key `":me"` (ChatServer.php:219), while every handler writes `me`. The model assumes the database client binds `":me"` to the `:me` placeholder. That behaviour is not part of this model. If the client rejected the key, `execute` would raise before the `del` at ChatServer.php:223 and the reverse-key cleanup at ChatServer.php:227-233.
- SQL NULL is modelled only where the code distinguishes it: `chat_last_seen`, `news.tool_id`, the `search_terms` column and the aggregated `other_members`. Other columns are non-null.
- ChatStore.Summarize: a non-NULL `other_members` is a set. The SQL array's element order is not modelled.
- Responders.FindChat: `GROUP BY chat_id` without `ORDER BY` returns the groups in an order SQL leaves unspecified, and the loop keeps the last. The model fixes that order to the order of each chat's last row in `chat_neighbor`. When several chats qualify, which one is reused is therefore a modelling choice. `ResponderFacts.FindChatSymmetric` and `ResponderFacts.SendThenLookupFindsChat` rely on this order. `Responders.FindChat`'s own contract holds whatever the order.
- Responders.ListedChats: ties in `started_ts` are ordered as the sort leaves them. SQL leaves them unspecified, so the contract states the order and the multiplicity but not which of two tied chats comes first.
- Responders.NewestFirst: ties in `send_ts` are unspecified, as above; the contract states the order, the membership and the multiplicity.
- ToolSql.DecodeColumn: the database re-renders a stored array literal before it is read back. `ToolSql.SearchTermsRoundTrip` reads back the literal as written. `ToolSql.BareListRoundTrip` covers the unquoted form the database prints for terms without special characters. Backslash escapes are not modelled.
- ToolSql.ListAllToolsQuery: the SQL text before the search clause is fixed and not modelled. The radius parameter's value is abstract.
- ToolSql.UpdateStatement: `replacement_cost` is a float bound as the abstract value `PFloat`. The placeholder scan ignores quoting, since neither statement holds quoted text.
- JsonBlock.ParseJsonBlock: the JSON decoder and `is_array` are parameters. The error log line is not modelled.
- PingTime.Format: only non-negative years are modelled, and years above 9999 are printed in full as PHP does. `Valid` bounds each field on its own; whether the day exists in that month is not checked, since the clock supplies real dates.
- News.GetNews: a negative limit is rejected by the database, modelled as the error `NegativeLimit`. The caller's missing neighbour row is modelled as the absence of a distance test.
